/** The connected-devices pass of the Linux collector: parsing `nmcli -t` and
    `lsblk` output into device records, the pen-drive flag, removal of devices
    no longer connected, and the cheating record raised for a pen drive. */
module CollectorDevices {
  import opened Wrappers
  import opened Seqs
  import opened Text
  import opened Records
  import opened Tally

  /** Keeps, in order, the values `f` finds in the lines it accepts. */
  function Collect(f: string -> Option<DeviceRecord>, lines: seq<string>): (r: seq<DeviceRecord>)
    ensures |r| <= |lines|
    ensures forall k :: 0 <= k < |lines| && f(lines[k]).Some? ==> f(lines[k]).value in r
    ensures forall d :: d in r ==> exists k :: 0 <= k < |lines| && f(lines[k]) == Some(d)
    decreases |lines|
  {
    if |lines| == 0 then []
    else
      var pre := lines[..|lines| - 1];
      var last := lines[|lines| - 1];
      var r := Collect(f, pre);
      assert forall k :: 0 <= k < |pre| ==> lines[k] == pre[k];
      match f(last)
      case None => r
      case Some(d) => r + [d]
  }

  /** Collecting is done line by line, in order: the values of the earlier lines
      come first. */
  lemma {:induction false} CollectAppend(f: string -> Option<DeviceRecord>, a: seq<string>, b: seq<string>)
    ensures Collect(f, a + b) == Collect(f, a) + Collect(f, b)
    decreases |b|
  {
    if |b| == 0 {
      assert a + b == a;
    } else {
      var b' := b[..|b| - 1];
      assert (a + b)[..|a + b| - 1] == a + b';
      assert (a + b)[|a + b| - 1] == b[|b| - 1];
      CollectAppend(f, a, b');
    }
  }

  /** One line contributes its value, if it has one. */
  lemma CollectLine(f: string -> Option<DeviceRecord>, line: string)
    ensures Collect(f, [line]) == if f(line).Some? then [f(line).value] else []
  {
    assert [line][..0] == [];
  }

  /** Each value is kept as many times as there are lines it is found in. */
  lemma {:induction false} CollectCounts(f: string -> Option<DeviceRecord>, lines: seq<string>)
    ensures forall d :: multiset(Collect(f, lines))[d] == CountKey(lines, f, Some(d))
    decreases |lines|
  {
    if |lines| > 0 {
      var pre := lines[..|lines| - 1];
      CollectCounts(f, pre);
      FrontLast(lines);
      CollectCountsStep(f, pre, lines[|lines| - 1], Collect(f, pre), Collect(f, lines));
    }
  }

  lemma CollectCountsStep(f: string -> Option<DeviceRecord>, pre: seq<string>, line: string,
                          r: seq<DeviceRecord>, r': seq<DeviceRecord>)
    requires forall d :: multiset(r)[d] == CountKey(pre, f, Some(d))
    requires r' == r + (if f(line).Some? then [f(line).value] else [])
    ensures forall d :: multiset(r')[d] == CountKey(pre + [line], f, Some(d))
  {
    forall d ensures multiset(r')[d] == CountKey(pre + [line], f, Some(d)) {
      CountKeySnoc(pre, line, f, Some(d));
    }
  }

  // ---------------------------------------------------------------------------
  // lsblk -o NAME,SIZE,TYPE,MOUNTPOINT

  /** One line of `lsblk` output. A line with at least NAME, SIZE and TYPE that
      is a mounted partition becomes a storage device, a pen drive when the
      mount point starts with "/media". */
  function ClassifyLsblkLine(line: string, now: string): (r: Option<DeviceRecord>)
    ensures var cols := SplitWhitespace(line);
            r.Some? <==> |cols| >= 4 && cols[2] == "part"
    ensures var cols := SplitWhitespace(line);
            r.Some? ==> r.value == DeviceRecord(now, r.value.deviceType, cols[0], StorageDetails(cols[3]))
    ensures r.Some? ==> (IsPenDrive(r.value) <==> StartsWith(r.value.details.mountPoint, "/media"))
    ensures r.Some? ==> r.value.deviceType == PenDriveType || r.value.deviceType == SecondaryStorageType
  {
    var cols := SplitWhitespace(line);
    if line == "" || |cols| < 3 then None
    else
      var mount := if |cols| >= 4 then Some(cols[3]) else None;
      if cols[2] == "part" && mount.Some? && mount.value != "" then
        var kind := if StartsWith(mount.value, "/media") then PenDriveType else SecondaryStorageType;
        Some(DeviceRecord(now, kind, cols[0], StorageDetails(mount.value)))
      else None
  }

  /** A line printed from NAME, SIZE, TYPE `part` and a mount point is read back
      as that partition. */
  lemma LsblkLineRoundTrip(name: string, size: string, mount: string, now: string)
    requires |name| > 0 && NoSpace(name) && |size| > 0 && NoSpace(size) && |mount| > 0 && NoSpace(mount)
    ensures ClassifyLsblkLine(Join([name, size, "part", mount], ' '), now)
            == Some(DeviceRecord(now, if StartsWith(mount, "/media") then PenDriveType else SecondaryStorageType,
                                 name, StorageDetails(mount)))
  {
    var fields := [name, size, "part", mount];
    assert forall i :: 0 <= i < |fields| ==> |fields[i]| > 0 && NoSpace(fields[i]);
    SplitWhitespaceJoin(fields);
  }

  function LsblkParser(now: string): string -> Option<DeviceRecord>
  {
    line => ClassifyLsblkLine(line, now)
  }

  datatype StorageScan = StorageScan(devices: seq<DeviceRecord>, penDriveDetected: bool)

  predicate AnyPenDrive(devices: seq<DeviceRecord>)
  {
    exists i :: 0 <= i < |devices| && IsPenDrive(devices[i])
  }

  function PenFlag(devices: seq<DeviceRecord>): (b: bool)
    ensures b <==> AnyPenDrive(devices)
    decreases |devices|
  {
    if |devices| == 0 then false
    else
      var pre := devices[..|devices| - 1];
      assert forall i :: 0 <= i < |pre| ==> devices[i] == pre[i];
      PenFlag(pre) || IsPenDrive(devices[|devices| - 1])
  }

  /** `output.split('\n')[1:]`: the lines after the header row. */
  function LsblkLines(output: string): seq<string>
  {
    Split(output, '\n')[1..]
  }

  /** `psutil.disk_usage(mountpoint)` raises on this line: it is a mounted
      partition whose mount point `usable` rejects (`[SWAP]`, say, or the first
      word of a mount point that holds a space). */
  function DiskUsageFails(now: string, usable: string -> bool): string -> bool
  {
    line => var c := ClassifyLsblkLine(line, now); c.Some? && !usable(c.value.details.mountPoint)
  }

  /** The number of lines the loop gets through before `disk_usage` raises; the
      `except` around the whole loop then abandons the remaining lines. */
  function LsblkStop(output: string, now: string, usable: string -> bool): nat
  {
    FirstIndex(LsblkLines(output), DiskUsageFails(now, usable), true)
  }

  /** The `lsblk` loop: the lines after the header are classified in order until
      `disk_usage` raises; the flag is raised by any pen drive recorded. */
  function ParseLsblk(output: string, now: string, usable: string -> bool): (r: StorageScan)
    ensures forall d :: d in r.devices ==> d.details.StorageDetails? && usable(d.details.mountPoint)
    ensures r.penDriveDetected <==> AnyPenDrive(r.devices)
    ensures forall d :: d in r.devices <==>
              exists k :: 0 <= k < LsblkStop(output, now, usable) && ClassifyLsblkLine(LsblkLines(output)[k], now) == Some(d)
  {
    var lines := LsblkLines(output);
    var stop := LsblkStop(output, now, usable);
    var devices := Collect(LsblkParser(now), lines[..stop]);
    assert forall k :: 0 <= k < stop ==> lines[..stop][k] == lines[k];
    assert forall k :: 0 <= k < stop ==> !DiskUsageFails(now, usable)(lines[k]);
    StorageScan(devices, PenFlag(devices))
  }

  /** When `disk_usage` accepts every mounted partition, every line after the
      header is classified. */
  lemma LsblkAllUsable(output: string, now: string, usable: string -> bool)
    requires forall k :: 0 <= k < |LsblkLines(output)| && ClassifyLsblkLine(LsblkLines(output)[k], now).Some? ==>
               usable(ClassifyLsblkLine(LsblkLines(output)[k], now).value.details.mountPoint)
    ensures ParseLsblk(output, now, usable).devices == Collect(LsblkParser(now), LsblkLines(output))
  {
    var lines := LsblkLines(output);
    assert forall k :: 0 <= k < |lines| ==> !DiskUsageFails(now, usable)(lines[k]);
    FirstIndexUnique(lines, DiskUsageFails(now, usable), true, |lines|);
    assert lines[..|lines|] == lines;
  }

  /** A partition `disk_usage` rejects hides every line after it: only the lines
      before it can contribute devices. */
  lemma FailureHidesLaterLines(output: string, now: string, usable: string -> bool, j: nat)
    requires j < |LsblkLines(output)|
    requires DiskUsageFails(now, usable)(LsblkLines(output)[j])
    ensures forall d :: d in ParseLsblk(output, now, usable).devices ==>
              exists k :: 0 <= k < j && ClassifyLsblkLine(LsblkLines(output)[k], now) == Some(d)
  {
    assert LsblkStop(output, now, usable) <= j;
  }

  /** So a pen drive listed after such a partition (a swap partition, say) is
      not detected unless an earlier line already was one. */
  lemma PenDriveAfterFailureMissed(output: string, now: string, usable: string -> bool, j: nat)
    requires j < |LsblkLines(output)|
    requires DiskUsageFails(now, usable)(LsblkLines(output)[j])
    requires forall k :: 0 <= k < j && ClassifyLsblkLine(LsblkLines(output)[k], now).Some? ==>
               !IsPenDrive(ClassifyLsblkLine(LsblkLines(output)[k], now).value)
    ensures !ParseLsblk(output, now, usable).penDriveDetected
  {
    var r := ParseLsblk(output, now, usable);
    FailureHidesLaterLines(output, now, usable, j);
    forall i | 0 <= i < |r.devices| ensures !IsPenDrive(r.devices[i]) {
      assert r.devices[i] in r.devices;
    }
  }

  /** The header line never becomes a device, whatever it holds. */
  lemma LsblkSkipsHeader(header: string, body: string)
    requires '\n' !in header
    ensures LsblkLines(header + "\n" + body) == Split(body, '\n')
  {
    SplitConcat(header, '\n', body);
    SplitSingle(header, '\n');
    assert header + "\n" + body == header + ['\n'] + body;
  }

  // ---------------------------------------------------------------------------
  // nmcli -t -f SSID,BSSID,SIGNAL dev wifi, as the collector reads it

  /** One line of `nmcli` terse output, split on every ':' into exactly three
      fields; anything else, or a signal that is not an integer, is skipped. */
  function ParseWifiLine(line: string, now: string): (r: Option<DeviceRecord>)
    ensures r.Some? ==> line != "" && |Split(line, ':')| == 3
    ensures r.Some? ==>
              var f := Split(line, ':');
              && ParseInt(f[2]).Some?
              && r.value == DeviceRecord(now, WifiType, Strip(f[0]),
                                         WifiDetails(Upper(RemoveChar(f[1], ':')), ParseInt(f[2]).value))
    ensures line != "" && |Split(line, ':')| == 3 && ParseInt(Split(line, ':')[2]).Some? ==> r.Some?
  {
    if line == "" then None
    else
      var fields := Split(line, ':');
      if |fields| != 3 then None
      else
        match ParseInt(fields[2])
        case None => None
        case Some(signal) =>
          Some(DeviceRecord(now, WifiType, Strip(fields[0]),
                            WifiDetails(Upper(RemoveChar(fields[1], ':')), signal)))
  }

  function WifiParser(now: string): string -> Option<DeviceRecord>
  {
    line => ParseWifiLine(line, now)
  }

  // ---------------------------------------------------------------------------
  // Removal of devices no longer connected

  function NameOf(d: DeviceRecord): string
  {
    d.deviceName
  }

  function NotStale(stale: set<string>): DeviceRecord -> bool
  {
    (d: DeviceRecord) => d.deviceName !in stale
  }

  lemma StaleCounts(stored: seq<DeviceRecord>, names: set<string>)
    ensures var r := Filter(NotStale(KeySet(stored, NameOf) - names), stored);
            forall d :: multiset(r)[d] == if d.deviceName in names then multiset(stored)[d] else 0
  {
    var stale := KeySet(stored, NameOf) - names;
    forall d ensures multiset(Filter(NotStale(stale), stored))[d] == if d.deviceName in names then multiset(stored)[d] else 0 {
      FilterCount(NotStale(stale), stored, d);
      if d in stored {
        KeySetMember(stored, NameOf, d);
      }
    }
  }

  /** Deletes every stored document whose `Device Name` was stored before but is
      not among the devices found now. */
  function RemoveStale(stored: seq<DeviceRecord>, current: seq<DeviceRecord>): (r: seq<DeviceRecord>)
    ensures forall d :: d in r <==> d in stored && d.deviceName in KeySet(current, NameOf)
    ensures KeySet(r, NameOf) == KeySet(stored, NameOf) * KeySet(current, NameOf)
    ensures IsSubseq(r, stored)
    ensures forall d :: multiset(r)[d] == if d.deviceName in KeySet(current, NameOf) then multiset(stored)[d] else 0
  {
    var stale := KeySet(stored, NameOf) - KeySet(current, NameOf);
    var r := Filter(NotStale(stale), stored);
    StaleCounts(stored, KeySet(current, NameOf));
    KeptNames(stored, KeySet(current, NameOf));
    r
  }

  lemma KeptNames(stored: seq<DeviceRecord>, names: set<string>)
    ensures var r := Filter(NotStale(KeySet(stored, NameOf) - names), stored);
            && (forall d :: d in r <==> d in stored && d.deviceName in names)
            && KeySet(r, NameOf) == KeySet(stored, NameOf) * names
  {
    var r := Filter(NotStale(KeySet(stored, NameOf) - names), stored);
    assert forall d :: d in stored ==> d.deviceName in KeySet(stored, NameOf) by {
      forall d | d in stored ensures d.deviceName in KeySet(stored, NameOf) {
        KeySetMember(stored, NameOf, d);
      }
    }
    forall n | n in KeySet(stored, NameOf) * names ensures n in KeySet(r, NameOf) {
      var i :| 0 <= i < |stored| && stored[i].deviceName == n;
      KeySetMember(r, NameOf, stored[i]);
    }
    forall n | n in KeySet(r, NameOf) ensures n in KeySet(stored, NameOf) * names {
      var i :| 0 <= i < |r| && r[i].deviceName == n;
      KeySetMember(stored, NameOf, r[i]);
    }
  }

  /** The outcome of one `collect_connected_devices` call. */
  datatype DevicePass = DevicePass(
    stored: seq<DeviceRecord>,
    devices: seq<DeviceRecord>,
    penDriveDetected: bool,
    cheating: seq<CheatingRecord>)

  /** One pass: Wi-Fi networks then partitions, stale documents deleted, a
      cheating record when a pen drive is mounted, and the devices found
      appended to the collection. */
  function CollectConnectedDevices(stored: seq<DeviceRecord>, nmcliOutput: string, lsblkOutput: string,
                                   usable: string -> bool, mac: string, now: string): (r: DevicePass)
    ensures r.devices == Collect(WifiParser(now), Split(nmcliOutput, '\n')) + ParseLsblk(lsblkOutput, now, usable).devices
    ensures r.penDriveDetected <==> AnyPenDrive(r.devices)
    ensures r.cheating == if r.penDriveDetected then [CheatingRecord(mac, PenDriveCheating, now)] else []
    ensures KeySet(r.stored, NameOf) == KeySet(r.devices, NameOf)
    ensures forall d :: d in stored && d.deviceName in KeySet(r.devices, NameOf) ==> d in r.stored
    ensures forall d :: d in r.stored ==> d in stored || d in r.devices
    ensures |r.stored| >= |r.devices| && r.stored[|r.stored| - |r.devices|..] == r.devices
    ensures r.stored == RemoveStale(stored, r.devices) + r.devices
  {
    var wifi := Collect(WifiParser(now), Split(nmcliOutput, '\n'));
    var storage := ParseLsblk(lsblkOutput, now, usable);
    var devices := wifi + storage.devices;
    WifiNeverPenDrive(Split(nmcliOutput, '\n'), now);
    PenDrivesAreStorage(wifi, storage.devices);
    var kept := RemoveStale(stored, devices);
    KeptThenAppended(stored, kept, devices);
    assert (kept + devices)[|kept|..] == devices;
    var cheating := if storage.penDriveDetected then [CheatingRecord(mac, PenDriveCheating, now)] else [];
    DevicePass(kept + devices, devices, storage.penDriveDetected, cheating)
  }

  lemma WifiNeverPenDrive(lines: seq<string>, now: string)
    ensures forall d :: d in Collect(WifiParser(now), lines) ==> !IsPenDrive(d)
  {
    forall d | d in Collect(WifiParser(now), lines) ensures !IsPenDrive(d) {
      var k :| 0 <= k < |lines| && WifiParser(now)(lines[k]) == Some(d);
      assert ParseWifiLine(lines[k], now) == Some(d);
    }
  }

  lemma PenDrivesAreStorage(wifi: seq<DeviceRecord>, storage: seq<DeviceRecord>)
    requires forall d :: d in wifi ==> !IsPenDrive(d)
    ensures AnyPenDrive(wifi + storage) <==> AnyPenDrive(storage)
  {
    var devices := wifi + storage;
    forall i | 0 <= i < |wifi| ensures !IsPenDrive(devices[i]) {
      assert devices[i] == wifi[i] && wifi[i] in wifi;
    }
    if AnyPenDrive(devices) {
      var i :| 0 <= i < |devices| && IsPenDrive(devices[i]);
      assert i >= |wifi|;
      assert devices[i] == storage[i - |wifi|];
    }
    if AnyPenDrive(storage) {
      var i :| 0 <= i < |storage| && IsPenDrive(storage[i]);
      assert devices[|wifi| + i] == storage[i];
    }
  }

  /** The stored collection after the pass: the documents kept, then the devices
      found. */
  lemma KeptThenAppended(stored: seq<DeviceRecord>, kept: seq<DeviceRecord>, devices: seq<DeviceRecord>)
    requires forall d :: d in kept <==> d in stored && d.deviceName in KeySet(devices, NameOf)
    requires KeySet(kept, NameOf) == KeySet(stored, NameOf) * KeySet(devices, NameOf)
    ensures KeySet(kept + devices, NameOf) == KeySet(devices, NameOf)
    ensures forall d :: d in stored && d.deviceName in KeySet(devices, NameOf) ==> d in kept + devices
  {
    KeySetAppend(kept, devices, NameOf);
  }

  lemma KeySetAppend<T, K>(a: seq<T>, b: seq<T>, key: T -> K)
    ensures KeySet(a + b, key) == KeySet(a, key) + KeySet(b, key)
  {
    var t := a + b;
    assert forall i :: 0 <= i < |a| ==> t[i] == a[i];
    assert forall i :: 0 <= i < |b| ==> t[|a| + i] == b[i];
    forall k | k in KeySet(t, key) ensures k in KeySet(a, key) + KeySet(b, key) {
      var i :| 0 <= i < |t| && key(t[i]) == k;
      if i >= |a| {
        assert key(b[i - |a|]) == k;
      }
    }
  }
}
