/** The host-side rules of the Linux collector: choosing and formatting the
    machine's MAC address, the user-process filter, and one pass of the
    application-usage loop that turns two process snapshots into closed-usage
    entries, newly tracked processes and browser-opened cheating records. */
module CollectorHost {
  import opened Wrappers
  import opened Seqs
  import opened Text
  import opened Timeline
  import opened Records

  // ---------------------------------------------------------------------------
  // get_mac_address

  datatype AddressFamily = Link | Inet | Inet6 | OtherFamily

  datatype NicAddress = NicAddress(family: AddressFamily, address: string)

  /** One entry of `psutil.net_if_addrs()`, in the order the mapping lists them. */
  datatype Interface = Interface(name: string, addrs: seq<NicAddress>)

  /** Address `j` of interface `i` is a usable hardware address: not on the
      loopback interface, a link-layer address, not starting "00:00:00". */
  predicate Eligible(ifaces: seq<Interface>, i: int, j: int)
  {
    && 0 <= i < |ifaces| && 0 <= j < |ifaces[i].addrs|
    && ifaces[i].name != "lo"
    && ifaces[i].addrs[j].family == Link
    && !StartsWith(ifaces[i].addrs[j].address, "00:00:00")
  }

  /** `address.replace(':', '_').upper()`. */
  function NormalizeMac(a: string): (r: string)
    ensures |r| == |a| && ':' !in r
    ensures forall k :: 0 <= k < |r| ==> !('a' <= r[k] <= 'z')
    ensures forall k :: 0 <= k < |a| ==> r[k] == if a[k] == ':' then '_' else UpperChar(a[k])
  {
    Upper(ReplaceChar(a, ':', '_'))
  }

  /** Normalising a normalised address changes nothing. */
  lemma NormalizeMacIdempotent(a: string)
    ensures NormalizeMac(NormalizeMac(a)) == NormalizeMac(a)
  {
    var n := NormalizeMac(a);
    var m := NormalizeMac(n);
    assert forall k :: 0 <= k < |n| ==> m[k] == n[k];
  }

  /** `get_mac_address`: the first eligible address, scanning interfaces and then
      their addresses in order, formatted; `None` when there is none. */
  method GetMacAddress(ifaces: seq<Interface>) returns (r: Option<string>)
    ensures r.None? <==> forall i, j :: !Eligible(ifaces, i, j)
    ensures r.Some? ==>
              exists i, j :: Eligible(ifaces, i, j)
                && r.value == NormalizeMac(ifaces[i].addrs[j].address)
                && forall i', j' :: Eligible(ifaces, i', j') ==> i < i' || (i == i' && j <= j')
  {
    var i := 0;
    while i < |ifaces|
      invariant 0 <= i <= |ifaces|
      invariant forall i', j' :: Eligible(ifaces, i', j') ==> i <= i'
    {
      if ifaces[i].name != "lo" {
        var j := 0;
        while j < |ifaces[i].addrs|
          invariant 0 <= j <= |ifaces[i].addrs|
          invariant forall i', j' :: Eligible(ifaces, i', j') ==> i < i' || (i == i' && j <= j')
        {
          var a := ifaces[i].addrs[j];
          if a.family == Link && !StartsWith(a.address, "00:00:00") {
            assert Eligible(ifaces, i, j);
            return Some(NormalizeMac(a.address));
          }
          j := j + 1;
        }
      }
      i := i + 1;
    }
    return None;
  }

  // ---------------------------------------------------------------------------
  // get_running_processes

  /** One `psutil.process_iter` entry: pid, name and creation time. */
  datatype ProcessInfo = ProcessInfo(pid: int, name: string, createTime: Instant)

  const SystemProcesses: seq<string> := [
    "init", "kthreadd", "ksoftirqd", "migration", "watchdog", "kworker", "rcu",
    "systemd", "kdevtmpfs", "bioset", "kblockd", "ata_sff", "khubd", "kseriod",
    "md", "jbd2", "ext4", "kvm", "kswapd", "fsnotify", "kthrotld", "acpi_thermal_pm"]

  const MinPidUser := 200

  predicate IsUserProcess(p: ProcessInfo)
  {
    p.name !in SystemProcesses && p.pid > MinPidUser
  }

  /** `get_running_processes`: the processes not named in the system list and
      with a pid above 200, in the order they were listed. */
  function RunningProcesses(procs: seq<ProcessInfo>): (r: seq<ProcessInfo>)
    ensures forall p :: p in r <==> p in procs && p.name !in SystemProcesses && p.pid > 200
    ensures IsSubseq(r, procs)
  {
    Filter(IsUserProcess, procs)
  }

  /** Filtering a filtered list again removes nothing more. */
  lemma RunningProcessesIdempotent(procs: seq<ProcessInfo>)
    ensures RunningProcesses(RunningProcesses(procs)) == RunningProcesses(procs)
  {
    FilterAll(IsUserProcess, RunningProcesses(procs));
  }

  // ---------------------------------------------------------------------------
  // One pass of collect_application_usage

  /** The value kept per tracked pid in `process_start_times`. */
  datatype Started = Started(name: string, startTime: Instant)

  /** The document written when a tracked process is gone. */
  datatype UsageEntry = UsageEntry(pid: int, name: string, startTime: Instant, endTime: Instant)

  datatype UsagePass = UsagePass(
    tracked: map<int, Started>,
    closed: map<int, UsageEntry>,
    started: seq<ProcessInfo>,
    cheating: seq<CheatingRecord>)

  function PidOf(p: ProcessInfo): int
  {
    p.pid
  }

  const Browsers: seq<string> := ["firefox", "chrome", "chromium", "opera"]

  predicate IsBrowser(p: ProcessInfo)
  {
    Lower(p.name) in Browsers
  }

  /** Adds the newly seen processes to the tracking map, one by one. */
  function Register(tracked: map<int, Started>, added: seq<ProcessInfo>): (r: map<int, Started>)
    requires forall i, j :: 0 <= i < j < |added| ==> added[i].pid != added[j].pid
    requires forall i :: 0 <= i < |added| ==> added[i].pid !in tracked
    ensures r.Keys == tracked.Keys + KeySet(added, PidOf)
    ensures forall pid :: pid in tracked ==> r[pid] == tracked[pid]
    ensures forall i :: 0 <= i < |added| ==> r[added[i].pid] == Started(added[i].name, added[i].createTime)
    decreases |added|
  {
    if |added| == 0 then tracked
    else
      var pre := added[..|added| - 1];
      var p := added[|added| - 1];
      var m := Register(tracked, pre);
      FrontLast(added);
      KeySetSnoc(pre, p, PidOf);
      LastPidNew(added);
      m[p.pid := Started(p.name, p.createTime)]
  }

  lemma LastPidNew(added: seq<ProcessInfo>)
    requires |added| > 0
    requires forall i, j :: 0 <= i < j < |added| ==> added[i].pid != added[j].pid
    ensures added[|added| - 1].pid !in KeySet(added[..|added| - 1], PidOf)
  {
    var pre := added[..|added| - 1];
    forall i | 0 <= i < |pre| ensures pre[i].pid != added[|added| - 1].pid {
      assert pre[i] == added[i];
    }
  }

  /** The cheating record for a browser that was just seen starting. */
  function BrowserOpened(mac: string, stamp: Instant -> string, p: ProcessInfo): CheatingRecord
  {
    CheatingRecord(mac, p.name + " opened", stamp(p.createTime))
  }

  /** The entries written for the tracked pids missing from `current`. */
  function ClosedEntries(tracked: map<int, Started>, current: set<int>, now: Instant): (r: map<int, UsageEntry>)
    ensures r.Keys == tracked.Keys - current
    ensures forall pid :: pid in r ==>
              r[pid] == UsageEntry(pid, tracked[pid].name, tracked[pid].startTime, now)
  {
    map pid | pid in tracked.Keys - current :: UsageEntry(pid, tracked[pid].name, tracked[pid].startTime, now)
  }

  /** The tracking map after the `del` of every ended pid. */
  function StillRunning(tracked: map<int, Started>, current: set<int>): (r: map<int, Started>)
    ensures r.Keys == tracked.Keys * current
    ensures forall pid :: pid in r ==> r[pid] == tracked[pid]
  {
    map pid | pid in tracked.Keys * current :: tracked[pid]
  }

  /** The `del` loop splits the tracking map in two: every tracked pid is either
      closed (it is gone from `current`) or kept (it still runs), never both, and
      nothing is lost: the closed entries and the kept map together give back
      every tracked process, with its name and start time, the closed ones ending
      now. */
  lemma EndedOrKept(tracked: map<int, Started>, current: set<int>, now: Instant)
    ensures ClosedEntries(tracked, current, now).Keys !! StillRunning(tracked, current).Keys
    ensures ClosedEntries(tracked, current, now).Keys + StillRunning(tracked, current).Keys == tracked.Keys
    ensures forall pid :: pid in tracked ==> (pid in StillRunning(tracked, current) <==> pid in current)
    ensures forall pid :: pid in tracked ==>
              var closed := ClosedEntries(tracked, current, now);
              var kept := StillRunning(tracked, current);
              if pid in kept then kept[pid] == tracked[pid]
              else closed[pid].pid == pid && closed[pid].endTime == now
                   && Started(closed[pid].name, closed[pid].startTime) == tracked[pid]
  {
  }

  /** The processes of the snapshot whose pid is not tracked yet, each pid once
      (its first listing), in snapshot order. */
  function NewProcesses(running: seq<ProcessInfo>, tracked: set<int>): (r: seq<ProcessInfo>)
    ensures KeySet(r, PidOf) == KeySet(running, PidOf) - tracked
    ensures forall i :: 0 <= i < |r| ==> r[i].pid !in tracked && IsFirstWithKey(running, PidOf, r[i])
    ensures forall i, j :: 0 <= i < j < |r| ==> r[i].pid != r[j].pid
    ensures InFirstOrder(r, running, PidOf)
    ensures IsSubseq(r, running)
  {
    var r := DedupeFrom(running, PidOf, tracked);
    assert forall i :: 0 <= i < |r| ==> r[i].pid !in tracked by {
      forall i | 0 <= i < |r| ensures r[i].pid !in tracked {
        KeySetMember(r, PidOf, r[i]);
      }
    }
    r
  }

  /** One pass of the `while True` loop: close the tracked pids that are gone,
      then track the pids seen for the first time, raising a cheating record for
      each browser among them. `stamp` is `strftime('%Y-%m-%d %H:%M:%S')`. */
  function UsageStep(tracked: map<int, Started>, running: seq<ProcessInfo>, now: Instant,
                     mac: string, stamp: Instant -> string): (r: UsagePass)
    ensures r.closed.Keys == tracked.Keys - KeySet(running, PidOf)
    ensures forall pid :: pid in r.closed ==>
              r.closed[pid] == UsageEntry(pid, tracked[pid].name, tracked[pid].startTime, now)
    ensures r.tracked.Keys == KeySet(running, PidOf)
    ensures forall pid :: pid in tracked && pid in r.tracked ==> r.tracked[pid] == tracked[pid]
    ensures KeySet(r.started, PidOf) == KeySet(running, PidOf) - tracked.Keys
    ensures forall i :: 0 <= i < |r.started| ==>
              IsFirstWithKey(running, PidOf, r.started[i])
              && r.tracked[r.started[i].pid] == Started(r.started[i].name, r.started[i].createTime)
    ensures forall i, j :: 0 <= i < j < |r.started| ==> r.started[i].pid != r.started[j].pid
    ensures InFirstOrder(r.started, running, PidOf)
    ensures |r.cheating| == |Filter(IsBrowser, r.started)|
    ensures forall i :: 0 <= i < |r.cheating| ==>
              r.cheating[i] == CheatingRecord(mac, Filter(IsBrowser, r.started)[i].name + " opened",
                                              stamp(Filter(IsBrowser, r.started)[i].createTime))
  {
    var current := KeySet(running, PidOf);
    var kept := StillRunning(tracked, current);
    var added := NewProcesses(running, kept.Keys);
    var reg := Register(kept, added);
    TrackedAfterPass(tracked, current, kept, added, reg);
    UsagePass(reg, ClosedEntries(tracked, current, now), added,
              Map(OpenedBy(mac, stamp), Filter(IsBrowser, added)))
  }

  function OpenedBy(mac: string, stamp: Instant -> string): ProcessInfo -> CheatingRecord
  {
    p => BrowserOpened(mac, stamp, p)
  }

  /** The tracking map after the pass holds exactly the pids running: the kept
      ones unchanged and the new ones registered. */
  lemma TrackedAfterPass(tracked: map<int, Started>, current: set<int>, kept: map<int, Started>,
                         added: seq<ProcessInfo>, reg: map<int, Started>)
    requires kept.Keys == tracked.Keys * current
    requires forall pid :: pid in kept ==> kept[pid] == tracked[pid]
    requires KeySet(added, PidOf) == current - kept.Keys
    requires reg.Keys == kept.Keys + KeySet(added, PidOf)
    requires forall pid :: pid in kept ==> reg[pid] == kept[pid]
    ensures reg.Keys == current
    ensures forall pid :: pid in tracked && pid in reg ==> reg[pid] == tracked[pid]
    ensures KeySet(added, PidOf) == current - tracked.Keys
  {
  }

  /** A second pass over the same snapshot closes nothing, starts tracking nothing and
      leaves the tracking map as it is. */
  lemma UsageStepSteady(tracked: map<int, Started>, running: seq<ProcessInfo>, now: Instant,
                        later: Instant, mac: string, stamp: Instant -> string)
    ensures var r := UsageStep(tracked, running, now, mac, stamp);
            var r2 := UsageStep(r.tracked, running, later, mac, stamp);
            r2.closed == map[] && r2.started == [] && r2.cheating == [] && r2.tracked == r.tracked
  {
    var r := UsageStep(tracked, running, now, mac, stamp);
    var r2 := UsageStep(r.tracked, running, later, mac, stamp);
    SteadyPass(r2, r.tracked, KeySet(running, PidOf));
  }

  /** A pass whose tracking map already holds exactly the pids running. */
  lemma SteadyPass(r2: UsagePass, tracked: map<int, Started>, current: set<int>)
    requires tracked.Keys == current
    requires r2.closed.Keys == tracked.Keys - current
    requires r2.tracked.Keys == current
    requires forall pid :: pid in tracked && pid in r2.tracked ==> r2.tracked[pid] == tracked[pid]
    requires KeySet(r2.started, PidOf) == current - tracked.Keys
    requires |r2.cheating| == |Filter(IsBrowser, r2.started)|
    ensures r2.closed == map[] && r2.started == [] && r2.cheating == [] && r2.tracked == tracked
  {
    assert r2.closed.Keys == {};
    if |r2.started| > 0 {
      KeySetMember(r2.started, PidOf, r2.started[0]);
    }
    assert |Filter(IsBrowser, r2.started)| == 0;
    assert r2.tracked == tracked by {
      assert forall pid :: pid in r2.tracked ==> r2.tracked[pid] == tracked[pid];
    }
  }
}
