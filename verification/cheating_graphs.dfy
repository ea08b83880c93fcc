/** The stacked bar chart of cheating records: one dataset per device, one bar
    segment per kind of cheating, each the number of matching records. */
module CheatingGraphs {
  import opened Records
  import opened Seqs
  import opened Tally

  function MacOf(r: CheatingRecord): string
  {
    r.macAddress
  }

  function TypeOf(r: CheatingRecord): string
  {
    r.typeOfCheating
  }

  function PairOf(r: CheatingRecord): (string, string)
  {
    (r.macAddress, r.typeOfCheating)
  }

  /** `[...new Set(graphData.map(item => item.mac_address))]`. */
  function MacAddresses(data: seq<CheatingRecord>): seq<string>
  {
    Distinct(Map(MacOf, data))
  }

  /** `[...new Set(graphData.map(item => item.type_of_cheating))]`. */
  function CheatingTypes(data: seq<CheatingRecord>): seq<string>
  {
    Distinct(Map(TypeOf, data))
  }

  /** The two label lists: duplicate-free, holding exactly the values present, in
      the order of their first occurrence in the data. */
  lemma LabelsExact(data: seq<CheatingRecord>)
    ensures forall i, j :: 0 <= i < j < |MacAddresses(data)| ==> MacAddresses(data)[i] != MacAddresses(data)[j]
    ensures forall i, j :: 0 <= i < j < |CheatingTypes(data)| ==> CheatingTypes(data)[i] != CheatingTypes(data)[j]
    ensures forall m :: m in MacAddresses(data) <==> m in KeySet(data, MacOf)
    ensures forall t :: t in CheatingTypes(data) <==> t in KeySet(data, TypeOf)
    ensures forall i, j :: 0 <= i < j < |MacAddresses(data)| ==>
              FirstIndex(data, MacOf, MacAddresses(data)[i]) < FirstIndex(data, MacOf, MacAddresses(data)[j])
    ensures forall i, j :: 0 <= i < j < |CheatingTypes(data)| ==>
              FirstIndex(data, TypeOf, CheatingTypes(data)[i]) < FirstIndex(data, TypeOf, CheatingTypes(data)[j])
  {
    MapKeys(data, MacOf);
    MapKeys(data, TypeOf);
    MapOrder(data, MacOf);
    MapOrder(data, TypeOf);
  }

  /** The labels of one key come in the order of the first record carrying each. */
  lemma MapOrder(data: seq<CheatingRecord>, key: CheatingRecord -> string)
    ensures forall i, j :: 0 <= i < j < |Distinct(Map(key, data))| ==>
              FirstIndex(data, key, Distinct(Map(key, data))[i]) < FirstIndex(data, key, Distinct(Map(key, data))[j])
  {
    var ls := Distinct(Map(key, data));
    forall i, j | 0 <= i < j < |ls|
      ensures FirstIndex(data, key, ls[i]) < FirstIndex(data, key, ls[j])
    {
      FirstIndexMap(key, data, ls[i]);
      FirstIndexMap(key, data, ls[j]);
    }
  }

  lemma MapKeys<K>(data: seq<CheatingRecord>, key: CheatingRecord -> K)
    ensures forall k :: k in Map(key, data) <==> k in KeySet(data, key)
  {
    forall k ensures k in Map(key, data) <==> k in KeySet(data, key) {
      if k in KeySet(data, key) {
        var i :| 0 <= i < |data| && key(data[i]) == k;
        assert Map(key, data)[i] == k;
      }
    }
  }

  datatype Rgb = Rgb(red: nat, green: nat, blue: nat)

  datatype Dataset = Dataset(macLabel: string, data: seq<nat>, color: Rgb)

  /** A colour channel `(index * k) % 255`. */
  function Channel(index: nat, k: nat): (c: nat)
    ensures c <= 254
    ensures index * k < 255 ==> c == index * k
  {
    (index * k) % 255
  }

  function ColorOf(index: nat): Rgb
  {
    Rgb(Channel(index, 100), Channel(index, 150), Channel(index, 200))
  }

  /** The bar heights of one device: for each type, the records of that device
      and type (`graphData.filter(...).length`). */
  function Row(data: seq<CheatingRecord>, mac: string, types: seq<string>): (r: seq<nat>)
    ensures |r| == |types|
    ensures forall j :: 0 <= j < |types| ==> r[j] == CountKey(data, PairOf, (mac, types[j]))
    decreases |types|
  {
    if |types| == 0 then []
    else [CountKey(data, PairOf, (mac, types[0]))] + Row(data, mac, types[1..])
  }

  /** `stackedBarChartData.datasets`. */
  function StackedBarChart(data: seq<CheatingRecord>): (ds: seq<Dataset>)
    ensures |ds| == |MacAddresses(data)|
    ensures forall i :: 0 <= i < |ds| ==>
              ds[i].macLabel == MacAddresses(data)[i] && |ds[i].data| == |CheatingTypes(data)|
    ensures forall i, j :: 0 <= i < |ds| && 0 <= j < |CheatingTypes(data)| ==>
              ds[i].data[j] == CountKey(data, PairOf, (MacAddresses(data)[i], CheatingTypes(data)[j]))
    ensures forall i :: 0 <= i < |ds| ==> ds[i].color.red <= 254 && ds[i].color.green <= 254 && ds[i].color.blue <= 254
  {
    var macs := MacAddresses(data);
    var types := CheatingTypes(data);
    seq(|macs|, i requires 0 <= i < |macs| => Dataset(macs[i], Row(data, macs[i], types), ColorOf(i)))
  }

  function Sum(xs: seq<nat>): nat
    decreases |xs|
  {
    if |xs| == 0 then 0 else xs[0] + Sum(xs[1..])
  }

  /** The height of every bar segment of every dataset added up. */
  function ChartTotal(ds: seq<Dataset>): nat
    decreases |ds|
  {
    if |ds| == 0 then 0 else Sum(ds[0].data) + ChartTotal(ds[1..])
  }

  /** One more record adds to a device's bar total once per listing of its type. */
  lemma {:induction false} RowSnoc(data: seq<CheatingRecord>, x: CheatingRecord, mac: string, types: seq<string>)
    ensures Sum(Row(data + [x], mac, types))
            == Sum(Row(data, mac, types)) + (if x.macAddress == mac then Occurrences(types, x.typeOfCheating) else 0)
    decreases |types|
  {
    if |types| > 0 {
      RowSnoc(data, x, mac, types[1..]);
      CountKeySnoc(data, x, PairOf, (mac, types[0]));
    }
  }

  lemma {:induction false} RowEmpty(data: seq<CheatingRecord>, mac: string, types: seq<string>)
    requires |data| == 0
    ensures Sum(Row(data, mac, types)) == 0
    decreases |types|
  {
    if |types| > 0 {
      RowEmpty(data, mac, types[1..]);
    }
  }

  /** A device's bar adds up to the number of records of that device, when the
      type list is duplicate-free and covers every type present. */
  lemma {:induction false} RowTotal(data: seq<CheatingRecord>, mac: string, types: seq<string>)
    requires forall i, j :: 0 <= i < j < |types| ==> types[i] != types[j]
    requires forall t :: t in KeySet(data, TypeOf) ==> t in types
    ensures Sum(Row(data, mac, types)) == CountKey(data, MacOf, mac)
    decreases |data|
  {
    if |data| == 0 {
      RowEmpty(data, mac, types);
    } else {
      var pre := data[..|data| - 1];
      var x := data[|data| - 1];
      assert data == pre + [x];
      KeySetSnoc(pre, x, TypeOf);
      RowTotal(pre, mac, types);
      RowSnoc(pre, x, mac, types);
      CountKeySnoc(pre, x, MacOf, mac);
      OccurrencesDistinct(types, x.typeOfCheating);
    }
  }

  lemma {:induction false} ChartTotalRows(data: seq<CheatingRecord>, ds: seq<Dataset>, macs: seq<string>, types: seq<string>)
    requires |ds| == |macs|
    requires forall i :: 0 <= i < |ds| ==> ds[i].data == Row(data, macs[i], types)
    requires forall i, j :: 0 <= i < j < |types| ==> types[i] != types[j]
    requires forall t :: t in KeySet(data, TypeOf) ==> t in types
    ensures ChartTotal(ds) == SumCounts(data, MacOf, macs)
    decreases |ds|
  {
    if |ds| > 0 {
      RowTotal(data, macs[0], types);
      ChartTotalRows(data, ds[1..], macs[1..], types);
    }
  }

  /** Every record is counted in exactly one bar segment: the segments of the
      whole chart add up to the number of records. */
  lemma ChartCountsEveryRecord(data: seq<CheatingRecord>)
    ensures ChartTotal(StackedBarChart(data)) == |data|
  {
    LabelsExact(data);
    var macs := MacAddresses(data);
    var types := CheatingTypes(data);
    ChartTotalRows(data, StackedBarChart(data), macs, types);
    SumCountsCovering(data, MacOf, macs);
  }
}
