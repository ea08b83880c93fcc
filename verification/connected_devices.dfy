/** The pen-drive alert logic of the connected-devices view: each poll replaces
    the device list with the response and turns the previous pen-drive flag and
    the new snapshot into the new flag and the alerts to show. */
module ConnectedDevices {
  import opened Records
  import opened Seqs

  datatype Alert = PenDriveDetected | PenDriveRemoved

  /** The component state: the device list shown and the pen-drive flag. */
  datatype View = View(devices: seq<DeviceRecord>, penDriveDetected: bool)

  datatype Response = Fetched(data: seq<DeviceRecord>) | FetchFailed

  datatype PollResult = PollResult(view: View, alerts: seq<Alert>)

  /** What the `forEach` over the response leaves: whether a pen drive was seen,
      and how many "Pen drive detected!" alerts were raised on the way. */
  datatype Scan = Scan(found: bool, raised: nat)

  predicate AnyPenDrive(data: seq<DeviceRecord>)
  {
    exists i :: 0 <= i < |data| && IsPenDrive(data[i])
  }

  /** The loop body, item by item: a pen drive sets the local flag, and raises an
      alert when the previous poll saw none. */
  function ScanDevices(data: seq<DeviceRecord>, previous: bool): (r: Scan)
    ensures r.found <==> AnyPenDrive(data)
    ensures r.raised == if previous then 0 else |Filter(IsPenDrive, data)|
    decreases |data|
  {
    if |data| == 0 then Scan(false, 0)
    else
      var pre := data[..|data| - 1];
      var last := data[|data| - 1];
      var s := ScanDevices(pre, previous);
      assert data == pre + [last];
      FilterSnoc(IsPenDrive, pre, last);
      AnyPenDriveSnoc(pre, last);
      if IsPenDrive(last) then Scan(true, s.raised + (if previous then 0 else 1))
      else s
  }

  lemma AnyPenDriveSnoc(data: seq<DeviceRecord>, x: DeviceRecord)
    ensures AnyPenDrive(data + [x]) <==> AnyPenDrive(data) || IsPenDrive(x)
  {
    var t := data + [x];
    assert t[|data|] == x;
    assert forall i :: 0 <= i < |data| ==> t[i] == data[i];
  }

  /** One call of `fetchConnectedDevices`. */
  function Poll(v: View, response: Response): (r: PollResult)
    ensures response.FetchFailed? ==> r == PollResult(v, [])
    ensures response.Fetched? ==> r.view.devices == response.data
    ensures response.Fetched? ==> (r.view.penDriveDetected <==> AnyPenDrive(response.data))
    ensures response.Fetched? && !v.penDriveDetected ==>
              multiset(r.alerts)[PenDriveDetected] == |Filter(IsPenDrive, response.data)|
    ensures v.penDriveDetected ==> PenDriveDetected !in r.alerts
    ensures PenDriveRemoved in r.alerts <==>
              response.Fetched? && v.penDriveDetected && !AnyPenDrive(response.data)
    ensures multiset(r.alerts)[PenDriveRemoved] <= 1
  {
    match response
    case FetchFailed => PollResult(v, [])
    case Fetched(data) =>
      var s := ScanDevices(data, v.penDriveDetected);
      var detected := seq(s.raised, _ => PenDriveDetected);
      var removed := if !s.found && v.penDriveDetected then [PenDriveRemoved] else [];
      assert PenDriveDetected !in removed && PenDriveRemoved !in detected;
      AllDetected(detected);
      PollResult(View(data, s.found), detected + removed)
  }

  lemma {:induction false} AllDetected(alerts: seq<Alert>)
    requires forall i :: 0 <= i < |alerts| ==> alerts[i] == PenDriveDetected
    ensures multiset(alerts)[PenDriveDetected] == |alerts|
    decreases |alerts|
  {
    if |alerts| > 0 {
      AllDetected(alerts[1..]);
      assert alerts == [alerts[0]] + alerts[1..];
    }
  }

  /** Polling again with the same response raises no alert and changes nothing. */
  lemma PollTwiceQuiet(v: View, response: Response)
    ensures var r := Poll(v, response);
            Poll(r.view, response) == PollResult(r.view, [])
  {
    var r := Poll(v, response);
  }
}
