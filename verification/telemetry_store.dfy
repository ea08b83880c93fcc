/** How the controller addresses the per-device telemetry, and the `deleteLogs`
    handler of `macAddressController.js`.

    The database is a map from (database, collection) to the documents stored
    there; a missing collection reads as empty, as `find()` on it does. */
module TelemetryStore {
  import opened Wrappers
  import opened Seqs
  import opened Timeline

  /** The kinds of data the fetch handlers serve. */
  datatype Category =
    | ProcessDetails
    | BrowserHistory
    | SystemHealth
    | NetworkDetails
    | NetworkRequests
    | FailureAlerts
    | ConnectedDevicesDetails
    | CheatingDevices

  datatype Address = Address(database: string, collection: string)

  /** The collection-name prefix of a per-device category. */
  function Prefix(c: Category): string
    requires !c.CheatingDevices?
  {
    match c
    case ProcessDetails => "process_details_"
    case BrowserHistory => "browser_history_"
    case SystemHealth => "system_health_"
    case NetworkDetails => "network_details_"
    case NetworkRequests => "network_requests_"
    case FailureAlerts => "failure_alerts_"
    case ConnectedDevicesDetails => "connected_devices_details_"
  }

  const CheatingAddress := Address("cheating_devices", "cheating_devices")

  /** Where a handler reads: database `mac`, collection `<category>_<mac>`; the
      cheating list lives at one fixed place shared by every device. */
  function AddressOf(c: Category, mac: string): (a: Address)
    ensures c.CheatingDevices? ==> a == CheatingAddress
    ensures !c.CheatingDevices? ==>
              a.database == mac
              && StartsWithPrefix(a.collection, Prefix(c))
              && a.collection[|Prefix(c)|..] == mac
  {
    if c.CheatingDevices? then CheatingAddress else Address(mac, Prefix(c) + mac)
  }

  predicate StartsWithPrefix(s: string, prefix: string)
  {
    |prefix| <= |s| && s[..|prefix|] == prefix
  }

  /** Two different (category, device) pairs never share a collection: a handler
      reads only its own category of its own device. */
  lemma AddressInjective(c1: Category, mac1: string, c2: Category, mac2: string)
    requires AddressOf(c1, mac1) == AddressOf(c2, mac2)
    ensures c1 == c2
    ensures !c1.CheatingDevices? ==> mac1 == mac2
  {
    if !c1.CheatingDevices? && !c2.CheatingDevices? {
      var a := AddressOf(c1, mac1);
      assert mac1 == mac2;
      var p1, p2 := Prefix(c1), Prefix(c2);
      assert a.collection == p1 + mac1 == p2 + mac2;
      assert |p1| == |p2|;
      assert p1 == a.collection[..|p1|] == p2;
    }
  }

  /** A stored document. Its `timestamp` as the database compares it against a
      `Date`, or `None` when the stored value does not compare with one. */
  datatype Doc = Doc(timestamp: Option<Instant>, payload: string)

  type Store = map<Address, seq<Doc>>

  /** `collection.find().toArray()`. */
  function Fetch(store: Store, a: Address): seq<Doc>
  {
    if a in store then store[a] else []
  }

  /** The body fields of a delete request; `None` is an absent field. */
  datatype DeleteRequest = DeleteRequest(
    macAddress: Option<string>,
    startTimestamp: Option<string>,
    endTimestamp: Option<string>)

  /** A present, non-empty string is truthy. */
  predicate Truthy(v: Option<string>)
  {
    v.Some? && v.value != ""
  }

  predicate HasAllParameters(body: Option<DeleteRequest>)
  {
    body.Some? && Truthy(body.value.macAddress) && Truthy(body.value.startTimestamp)
    && Truthy(body.value.endTimestamp)
  }

  datatype DeleteReply =
    | MissingParameters
    | DeleteFailed(error: string)
    | DeletedLogs(deletedCount: nat)
  {
    function Status(): nat
    {
      match this
      case MissingParameters => 400
      case DeleteFailed(_) => 500
      case DeletedLogs(_) => 200
    }

    predicate Success()
    {
      DeletedLogs?
    }
  }

  datatype DeleteResult = DeleteResult(reply: DeleteReply, store: Store)

  const InvalidStart := "Invalid startTimestamp format"
  const InvalidEnd := "Invalid endTimestamp format"
  const StartAfterEnd := "startTimestamp must be before endTimestamp"

  /** The `{ $gte: startDate, $lte: endDate }` filter. */
  predicate InRange(d: Doc, lo: Instant, hi: Instant)
  {
    Within(d.timestamp, Some(lo), Some(hi))
  }

  /** The bounds of a well-formed request: both parse, and start is not after end. */
  predicate ValidBounds(req: DeleteRequest, parse: string -> Option<Instant>)
    requires Truthy(req.startTimestamp) && Truthy(req.endTimestamp)
  {
    var lo := parse(req.startTimestamp.value);
    var hi := parse(req.endTimestamp.value);
    lo.Some? && hi.Some? && lo.value <= hi.value
  }

  /** `deleteLogs`: validate the body, parse the bounds with `parse` (`new Date`,
      `None` for an invalid date), then delete the `process_details_<mac>`
      documents inside the inclusive range. */
  function DeleteLogs(body: Option<DeleteRequest>, store: Store, parse: string -> Option<Instant>): (r: DeleteResult)
    ensures r.reply.MissingParameters? <==> !HasAllParameters(body)
    ensures r.reply.DeleteFailed? <==> HasAllParameters(body) && !ValidBounds(body.value, parse)
    ensures !r.reply.Success() ==> r.store == store
    ensures r.reply.Success() ==> r.reply.Status() == 200 && r.store.Keys == store.Keys
    ensures r.reply.Success() ==>
              var a := AddressOf(ProcessDetails, body.value.macAddress.value);
              var lo := parse(body.value.startTimestamp.value).value;
              var hi := parse(body.value.endTimestamp.value).value;
              && Fetch(r.store, a) == Filter(d => !InRange(d, lo, hi), Fetch(store, a))
              && r.reply.deletedCount == |Filter(d => InRange(d, lo, hi), Fetch(store, a))|
              && forall b :: b != a ==> Fetch(r.store, b) == Fetch(store, b)
  {
    if !HasAllParameters(body) then DeleteResult(MissingParameters, store)
    else
      var req := body.value;
      var lo := parse(req.startTimestamp.value);
      var hi := parse(req.endTimestamp.value);
      if lo.None? then DeleteResult(DeleteFailed(InvalidStart), store)
      else if hi.None? then DeleteResult(DeleteFailed(InvalidEnd), store)
      else if lo.value > hi.value then DeleteResult(DeleteFailed(StartAfterEnd), store)
      else
        var a := AddressOf(ProcessDetails, req.macAddress.value);
        var before := Fetch(store, a);
        var kept := Filter(d => !InRange(d, lo.value, hi.value), before);
        FilterComplement(d => InRange(d, lo.value, hi.value), d => !InRange(d, lo.value, hi.value), before);
        DeleteResult(DeletedLogs(|before| - |kept|), if a in store then store[a := kept] else store)
  }

  /** After a successful delete, the collection holds no document in the range,
      keeps every document outside it, and the count reported plus the documents
      left make up the documents there before. */
  lemma DeleteThenFetch(body: Option<DeleteRequest>, store: Store, parse: string -> Option<Instant>)
    requires DeleteLogs(body, store, parse).reply.Success()
    ensures var r := DeleteLogs(body, store, parse);
            var a := AddressOf(ProcessDetails, body.value.macAddress.value);
            var lo := parse(body.value.startTimestamp.value).value;
            var hi := parse(body.value.endTimestamp.value).value;
            && (forall d :: d in Fetch(r.store, a) ==> !InRange(d, lo, hi))
            && (forall d :: d in Fetch(store, a) && !InRange(d, lo, hi) ==> d in Fetch(r.store, a))
            && r.reply.deletedCount + |Fetch(r.store, a)| == |Fetch(store, a)|
  {
    var a := AddressOf(ProcessDetails, body.value.macAddress.value);
    var lo := parse(body.value.startTimestamp.value).value;
    var hi := parse(body.value.endTimestamp.value).value;
    FilterComplement(d => InRange(d, lo, hi), d => !InRange(d, lo, hi), Fetch(store, a));
  }

  /** Deleting the same range again finds nothing left to delete. */
  lemma DeleteTwice(body: Option<DeleteRequest>, store: Store, parse: string -> Option<Instant>)
    requires DeleteLogs(body, store, parse).reply.Success()
    ensures var r := DeleteLogs(body, store, parse);
            DeleteLogs(body, r.store, parse) == DeleteResult(DeletedLogs(0), r.store)
  {
    var r := DeleteLogs(body, store, parse);
    var a := AddressOf(ProcessDetails, body.value.macAddress.value);
    var lo := parse(body.value.startTimestamp.value).value;
    var hi := parse(body.value.endTimestamp.value).value;
    var after := Fetch(r.store, a);
    FilterAll(d => !InRange(d, lo, hi), after);
    var r2 := DeleteLogs(body, r.store, parse);
    assert r2.reply.deletedCount == 0;
    if a in r.store {
      assert r.store[a := after] == r.store;
    }
  }

  /** A one-instant range (start equal to end) is accepted. */
  lemma DeleteEqualBounds(mac: string, stamp: string, store: Store, parse: string -> Option<Instant>)
    requires mac != "" && stamp != "" && parse(stamp).Some?
    ensures DeleteLogs(Some(DeleteRequest(Some(mac), Some(stamp), Some(stamp))), store, parse).reply.Success()
  {
  }
}
