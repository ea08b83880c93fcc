# Exam-monitoring dashboard: a Dafny model of its logic

The system watches exam machines. A Python collector runs on each machine
(`linuxscript.py`). It records the applications that start and stop, the Wi-Fi
networks and mounted partitions it can see, and the browser history. It flags
cheating: a pen drive was mounted, or a browser was opened. An Express
controller (`macAddressController.js`) supervises the tracking child process,
serves the stored records of each device and deletes time ranges of them. A
React dashboard polls those records, raises pen-drive alerts and builds the
charts.

This project models the pure logic inside that glue. Each part is a Dafny
module of pure functions over sequences, sets and maps:

- `Tracking`: the start/stop supervisor of the tracking process, as a state machine with effects (spawn, signal, timer, reply).
  - `StepAsWritten` is the code as it stands.
  - `Step` ties the listeners and the timer to their own process.
  - The safety invariant `Safe` holds on every run of `Step`. Two short runs of `StepAsWritten` break it.
- `TelemetryStore`: how every handler addresses a device's data, and `deleteLogs` (request validation, then the inclusive range delete).
- `ConnectedDevices`: the pen-drive alert step of the connected-devices view.
- `CheatingDevices`: first-of-each-type de-duplication of cheating records.
- `CheatingGraphs`: the per-device, per-type stacked bar counts and their colours.
- `ViewGraphs`: the inclusive date-range filters, the signal projection, the netmask, URL and per-day histograms, and the request line series.
- `CollectorHost`: MAC-address choice and formatting, the user-process filter, and one pass of the application-usage loop.
- `CollectorDevices`: `lsblk` and `nmcli` line parsing, the `disk_usage` failure that ends the `lsblk` loop, the pen-drive flag, stale-device removal and the pen-drive cheating record.
- `NmcliTerse`: the escaping nmcli applies in terse mode, and a splitter that undoes it.
- `BrowserHistory`: entry validation, the today-or-later filter and the newest-first sort of the browser-history pass.

The modules above share these supporting modules:

- `Seqs`: filter, first-occurrence de-duplication, key sets and subsequences.
- `Text`: Python's `split`, `strip`, `upper` and `int`, and string order.
- `Tally`: histograms by key.
- `Sorting`: a stable descending sort (`Sorting.SortDescStable`).
- `Records`: the stored documents.
- `Timeline`: an abstract, totally ordered instant.

Timestamps the source turns into `Date`/`datetime` become `Timeline.Instant`
through a `parse` parameter that returns `None` for an invalid date. Clocks and
`strftime` are parameters too.

## Model

| member | source | states |
|---|---|---|
| Tracking.Start | server/controllers/macAddressController.js:29-54 | With a handle held: reply 400 "Tracking already active", spawn nothing, change nothing. When idle: spawn the child, hold its handle and reply "Tracking started" at once. |
| Tracking.Stop | server/controllers/macAddressController.js:56-98 | When idle: 400 "Tracking is not active", nothing changes. A SIGINT that throws: 500 and the handle is kept. Otherwise: SIGINT to the held child, its fallback timer armed, one more request waiting for its exit. Never spawns. |
| Tracking.StepAsWritten | server/controllers/macAddressController.js:29-98 | The handlers as written: the close listener and the fallback timer always leave the handle null. A timer that fires while a handle is held sends SIGKILL to that handle, whoever it belongs to. |
| Tracking.Step | server/controllers/macAddressController.js:29-98 | The intended handlers: an exit clears the handle only when it is the exiting process, and a timer clears and kills only the process it was armed for. Every SIGKILL comes from a timer and targets that timer's process. |
| Tracking.NextPreservesSafety | server/controllers/macAddressController.js:29-98 | On every event the environment can deliver, the intended supervisor keeps the no-orphan invariant: every live child is the held handle or was asked to stop. It also sends SIGKILL only to a child that was asked to stop. |
| Tracking.RunSafe | server/controllers/macAddressController.js:29-98 | The no-orphan invariant holds after every admissible run from the initial idle state. |
| Tracking.StopThenFallbackIdles | server/controllers/macAddressController.js:82-95 | A successful stop arms the fallback, and once it fires the handle is null, whether or not the SIGKILL throws. |
| Tracking.AsWrittenStart | server/controllers/macAddressController.js:29-54 | Starting from idle adds exactly one live, spawned child and holds its handle. |
| Tracking.AsWrittenStop | server/controllers/macAddressController.js:56-98 | A successful stop marks the held child as stopping and arms one timer for it. Nothing else changes. |
| Tracking.AsWrittenExit | server/controllers/macAddressController.js:48-51 | The close listener as written nulls the handle, whichever child exits. |
| Tracking.AsWrittenFallback | server/controllers/macAddressController.js:82-95 | The timer as written kills and releases whatever handle is current, not the process it was armed for. |
| Tracking.FallbackKillsNewProcess | server/controllers/macAddressController.js:82-95 | Concrete run: start 1, stop 1, 1 exits, start 2, then 1's timer fires. It sends SIGKILL to child 2, which nobody asked to stop, and leaves an unsafe world. |
| Tracking.ExitClearsNewHandle | server/controllers/macAddressController.js:48-51 | Concrete run: start 1, stop 1, the timer releases 1, start 2, then 1 exits. Child 2 keeps running with no handle, and the next stop is refused as "Tracking is not active". |
| TelemetryStore.AddressOf | server/controllers/macAddressController.js:108-109 | A device category is read from database `mac`, collection `<category>_<mac>`. The cheating list is read from one fixed shared place. |
| TelemetryStore.AddressInjective | server/controllers/macAddressController.js:303-314 | Two different (category, device) pairs never address the same collection. |
| TelemetryStore.DeleteLogs | server/controllers/macAddressController.js:124-181 | 400 exactly when the body or one of its three fields is missing or empty. An unparsable bound or start after end gives 500. Both leave the store unchanged. On success the device's `process_details` collection keeps exactly the documents outside [start, end], and deletedCount is the number inside. No other collection changes. |
| TelemetryStore.DeleteThenFetch | server/controllers/macAddressController.js:156-168 | After a successful delete, no document in the range remains and every one outside it does. The count plus what is left equals the documents there before. |
| TelemetryStore.DeleteTwice | server/controllers/macAddressController.js:160-162 | Repeating a successful delete succeeds with deletedCount 0 and changes nothing. |
| TelemetryStore.DeleteEqualBounds | server/controllers/macAddressController.js:151-152 | A range whose start equals its end is accepted. |
| ConnectedDevices.ScanDevices | my-app/src/components/ConnectedDevices.js:68-86 | The loop finds a pen drive exactly when one is in the response. It raises one alert per pen-drive record when the previous flag was false, and none otherwise. |
| ConnectedDevices.Poll | my-app/src/components/ConnectedDevices.js:60-108 | A failed fetch changes nothing and alerts nothing. Otherwise the list becomes the response, and the flag is "some record is a pen drive". With the flag previously false, k pen drives give k "detected" alerts. With it true, no "detected" alert. "Removed" fires exactly when the flag was true and no pen drive is present, and at most once. |
| ConnectedDevices.PollTwiceQuiet | my-app/src/components/ConnectedDevices.js:68-101 | Polling again with the same response raises no alert and changes nothing. |
| CheatingDevices.UniqueCheatingTypes | my-app/src/components/CheatingDevices.js:51-61 | No two rows share a type. The types are exactly those of the input. Each row is the first input record of its type. Rows come in the order in which their types first occur in the input. The result is a subsequence of the input. |
| CheatingDevices.UniqueCheatingTypesIdempotent | my-app/src/components/CheatingDevices.js:51-61 | Filtering twice gives the same list as filtering once. |
| CheatingDevices.Refresh | my-app/src/components/CheatingDevices.js:63-75 | A failed fetch keeps the list shown. A successful one shows exactly the response's types, one row each. Each row is the response's first record of that type, in first-occurrence order. |
| CheatingGraphs.LabelsExact | my-app/src/components/CheatingDevicesGraphs.js:46-49 | The device and type label lists are duplicate-free and hold exactly the values present. Labels come in the order of the first record carrying each. |
| CheatingGraphs.Channel | my-app/src/components/CheatingDevicesGraphs.js:63-68 | A colour channel lies in 0..254, and equals index*k while that is below 255. |
| CheatingGraphs.Row | my-app/src/components/CheatingDevicesGraphs.js:56-62 | One bar per type, each the number of records of this device and that type. |
| CheatingGraphs.StackedBarChart | my-app/src/components/CheatingDevicesGraphs.js:52-71 | One dataset per distinct device, labelled with it. One entry per distinct type. Entry [i][j] counts the records of device i and type j. Every channel is at most 254. |
| CheatingGraphs.RowTotal | my-app/src/components/CheatingDevicesGraphs.js:56-62 | A device's bar segments add up to its number of records. |
| CheatingGraphs.ChartCountsEveryRecord | my-app/src/components/CheatingDevicesGraphs.js:46-62 | All segments of the chart add up to the number of records, so each record is counted exactly once. |
| Tally.Histogram | my-app/src/components/ViewGraphs.js:345-348 | The keys of the `reduce` histogram are exactly the keys present, and each value is the number of items with that key. |
| Tally.HistogramTotal | my-app/src/components/ViewGraphs.js:350-351 | Read in first-occurrence key order, the histogram's values add up to the number of items. |
| ViewGraphs.RangeFilter | my-app/src/components/ViewGraphs.js:182-192 | An empty bound returns the data unchanged. Otherwise an item is kept exactly when its date lies within both bounds, inclusive. Every occurrence of a kept item stays, and none of a dropped one. The result is a subsequence of the data. |
| ViewGraphs.InvalidBoundEmpties | my-app/src/components/ViewGraphs.js:185-191 | An invalid, non-empty bound empties the chart. |
| ViewGraphs.DeviceSignals | my-app/src/components/ViewGraphs.js:79-83 | One point per record, in order, keeping name and timestamp. A signal strength is present exactly for Wi-Fi records, and it is that record's strength. |
| ViewGraphs.FilterCommutesWithSignals | my-app/src/components/ViewGraphs.js:195-205 | Range-filtering the signal points equals projecting the records inside the range. |
| ViewGraphs.NetmaskCounts | my-app/src/components/ViewGraphs.js:345-348 | The keys are exactly the netmasks present. Each count is at least 1 and is the number of records with that netmask. |
| ViewGraphs.NetmaskCountsTotal | my-app/src/components/ViewGraphs.js:345-351 | The doughnut values add up to the number of records. |
| ViewGraphs.UrlVisitCounts | my-app/src/components/ViewGraphs.js:452-455 | The keys are exactly the URLs present. Each count is at least 1 and is the number of visits to that URL. |
| ViewGraphs.UrlVisitCountsTotal | my-app/src/components/ViewGraphs.js:452-458 | The URL counts add up to the number of visits. |
| ViewGraphs.DayOf | my-app/src/components/ViewGraphs.js:394 | The bucket is the space-free prefix of the timestamp, ending at the first space or at the end. |
| ViewGraphs.DayOfStamp | my-app/src/components/ViewGraphs.js:394 | A timestamp "<day> <time>" lands in bucket `day`. |
| ViewGraphs.ProcessedData | my-app/src/components/ViewGraphs.js:392-401 | One bucket per day present, counting that day's requests. |
| ViewGraphs.ProcessedDataTotal | my-app/src/components/ViewGraphs.js:392-401 | The per-day counts add up to the number of requests. |
| ViewGraphs.RequestSeries | my-app/src/components/ViewGraphs.js:403-405 | Labels are the timestamps in order. The values rise strictly from 1 to n, one per request. |
| CollectorHost.NormalizeMac | server/controllers/linuxscript.py:44 | Same length, no ':' left, no lower-case letter. Each ':' becomes '_' and every other character is upper-cased. |
| CollectorHost.NormalizeMacIdempotent | server/controllers/linuxscript.py:44 | Formatting a formatted address changes nothing. |
| CollectorHost.GetMacAddress | server/controllers/linuxscript.py:38-45 | `None` exactly when no interface other than `lo` has a link address not starting "00:00:00". Otherwise the formatted first such address in scan order. |
| CollectorHost.RunningProcesses | server/controllers/linuxscript.py:71-83 | A process is kept exactly when its name is not a system name and its pid is above 200. Order is preserved. |
| CollectorHost.RunningProcessesIdempotent | server/controllers/linuxscript.py:78 | Filtering the filtered list removes nothing more. |
| CollectorHost.Register | server/controllers/linuxscript.py:333-336 | The new pids are added with their name and creation time. Tracked pids keep their entry. |
| CollectorHost.EndedOrKept | server/controllers/linuxscript.py:311-330 | Each tracked pid is either closed (it is no longer running) or kept (it still runs), never both. A kept pid keeps its entry unchanged. A closed entry carries that pid's name and start time, and ends now. |
| CollectorHost.NewProcesses | server/controllers/linuxscript.py:333-334 | The processes to register are the untracked pids of the snapshot, each once at its first listing, in snapshot order. |
| CollectorHost.UsageStep | server/controllers/linuxscript.py:303-345 | One loop pass. Every tracked pid now absent yields exactly one entry. Afterwards the tracked pids are exactly the running ones. Kept pids keep their start. New pids are tracked from their first listing, each once, in snapshot order. One "<name> opened" record per new browser, stamped with its creation time. |
| CollectorHost.UsageStepSteady | server/controllers/linuxscript.py:307-345 | A second pass over the same snapshot closes nothing, tracks nothing new, raises nothing and leaves the map as it is. |
| CollectorDevices.ClassifyLsblkLine | server/controllers/linuxscript.py:223-252 | A line becomes a device exactly when it has at least four columns and TYPE `part`. It is a pen drive exactly when the mount point starts with "/media", else secondary storage. |
| CollectorDevices.LsblkLineRoundTrip | server/controllers/linuxscript.py:226-246 | A printed `NAME SIZE part MOUNT` line is read back as that partition. |
| CollectorDevices.PenFlag | server/controllers/linuxscript.py:239-241 | The flag is raised exactly when some device is a pen drive. |
| CollectorDevices.ParseLsblk | server/controllers/linuxscript.py:219-255 | A device is recorded exactly when it is classified from a line before the first mounted partition that `disk_usage` rejects. Every device recorded is a partition whose mount point `disk_usage` accepts. The flag means "a pen drive was recorded". |
| CollectorDevices.LsblkAllUsable | server/controllers/linuxscript.py:219-255 | When `disk_usage` accepts every mounted partition, every line after the header is classified. |
| CollectorDevices.FailureHidesLaterLines | server/controllers/linuxscript.py:219-255 | Once `disk_usage` rejects a partition, only the lines before it contribute devices. |
| CollectorDevices.PenDriveAfterFailureMissed | server/controllers/linuxscript.py:234-241 | A pen drive listed after a rejected partition, such as `[SWAP]`, is not detected unless an earlier line was a pen drive. |
| CollectorDevices.LsblkSkipsHeader | server/controllers/linuxscript.py:221 | The header line is dropped: the lines examined are exactly those of the body, whatever the header holds. |
| CollectorDevices.ParseWifiLine | server/controllers/linuxscript.py:199-214 | A non-empty line is accepted exactly when `split(':')` gives three fields and the third is an integer. The name is stripped, and the BSSID loses its colons and is upper-cased. |
| CollectorDevices.RemoveStale | server/controllers/linuxscript.py:269-274 | A stored document survives exactly when its device name is among the names found now, every copy of it. The surviving names are the stored names that are still present. The survivors keep their order. |
| CollectorDevices.CollectAppend | server/controllers/linuxscript.py:199-252 | Lines are read in order: the devices of earlier lines come before those of later ones. |
| CollectorDevices.CollectCounts | server/controllers/linuxscript.py:199-252 | Each device is recorded as many times as there are lines it is parsed from. |
| CollectorDevices.PenDrivesAreStorage | server/controllers/linuxscript.py:239-241 | Wi-Fi entries never raise the flag: a pen drive is among the devices exactly when it is among the partitions. |
| CollectorDevices.CollectConnectedDevices | server/controllers/linuxscript.py:176-291 | The devices found are the Wi-Fi entries then the partitions. The flag means "a pen drive is among them", and one "Pen drive detected" record is raised exactly then. Afterwards the stored names are exactly the names found. A stored document whose device is still present is kept, and every stored document is an old one or a device found. The collection is exactly the surviving documents followed by the devices found, each once, in order. |
| NmcliTerse.SplitJoinTerse | server/controllers/linuxscript.py:193 | Splitting a terse line on its unescaped separators gives back exactly the values nmcli printed. |
| NmcliTerse.ParseWifiLineTerse | server/controllers/linuxscript.py:199-214 | The Wi-Fi parser with escape-aware splitting: three fields, an integer signal, the name stripped and the BSSID's colons removed. |
| NmcliTerse.TerseLineParsed | server/controllers/linuxscript.py:193-214 | Every network line nmcli prints is read back as that network, BSSID included. |
| NmcliTerse.SplitOnEveryColonDropsBssid | server/controllers/linuxscript.py:202 | The plain `split(':')` rejects every network whose BSSID holds a colon. |
| BrowserHistory.OutcomeAsWritten | server/controllers/linuxscript.py:501-526 | As written, an entry raises exactly when it is a two-item tuple, or an accepted one whose timestamp has no `strftime`. It is added only if it is a tuple of three or more items with an `http` URL and a day at or after today. |
| BrowserHistory.Outcome | server/controllers/linuxscript.py:501-526 | As intended, a tuple of two or more items with an `http` URL and a day at or after today is added. Its title is the third item if there is one, else None. |
| BrowserHistory.Collect | server/controllers/linuxscript.py:512-526 | The loop stores nothing exactly when some entry raises. Otherwise the rows are exactly those the entries add. |
| BrowserHistory.CollectCounts | server/controllers/linuxscript.py:512-526 | Each row is collected as many times as there are entries that add it. |
| BrowserHistory.RetrieveAsWritten | server/controllers/linuxscript.py:498-529 | The pass as written stores nothing exactly when some entry raises. Otherwise its rows are sorted newest first, and each row appears as many times as entries add it. Rows with equal timestamps keep their history order. |
| BrowserHistory.Retrieve | server/controllers/linuxscript.py:498-529 | The corrected pass stores nothing exactly when some entry raises. Otherwise its rows are exactly the recent `http` entries, each as many times as it occurs, sorted newest first. Rows with equal timestamps keep their history order. |
| BrowserHistory.AsWrittenAgreesWithoutPairs | server/controllers/linuxscript.py:512-529 | On a history with no two-item tuple, the pass as written and the corrected one store the same rows. |
| BrowserHistory.PairAbortsAsWritten | server/controllers/linuxscript.py:503-504 | One two-item tuple anywhere makes the pass as written store nothing. |
| BrowserHistory.PairStored | server/controllers/linuxscript.py:501-529 | A recent `http` pair is stored by the corrected pass, with no title, and makes the pass as written store nothing. |
| Sorting.SortDesc | server/controllers/linuxscript.py:529 | The result is sorted by key, largest first, and is a permutation of the input. |
| Sorting.InsertDescStable | server/controllers/linuxscript.py:529 | An inserted element goes after every element of its own key. |
| Sorting.SortDescStable | server/controllers/linuxscript.py:529 | Like Python's sort with `reverse=True`, the sort is stable: the elements of any one key keep their input order. |
| Text.Split | server/controllers/linuxscript.py:202 | `str.split(sep)`: at least one piece, and no piece contains the separator. |
| Text.JoinSplit | server/controllers/linuxscript.py:194 | Joining the pieces of a split gives back the string. |
| Text.SplitJoin | server/controllers/linuxscript.py:194 | Splitting separator-free pieces joined by the separator gives back the pieces. |
| Text.SplitCount | server/controllers/linuxscript.py:202 | A split gives one more piece than the string has separators. |
| Text.Strip | server/controllers/linuxscript.py:203 | The result is the input with its leading and trailing whitespace removed, and none is left at either end. |
| Text.RemoveChar | server/controllers/linuxscript.py:204 | The result is the input with every copy of the character removed and the rest kept in order. |
| Text.SplitWhitespaceJoin | server/controllers/linuxscript.py:226 | `str.split()` of non-empty, space-free fields joined by spaces gives back the fields. |
| Text.ParseShow | server/controllers/linuxscript.py:210 | `int()` reads back a printed natural number. |
| Seqs.DedupeFrom | my-app/src/components/CheatingDevices.js:51-61 | Keeps the first item of each key not already seen: duplicate-free keys, exactly the unseen keys, a subsequence of the input. Keys come in the order of their first occurrence in the input. |
| Seqs.Distinct | my-app/src/components/CheatingDevicesGraphs.js:46-49 | `[...new Set(s)]`: each value once, exactly the values of the input, in the order of their first occurrence. |

## Left out

- MongoDB I/O is not modelled: connecting, closing, `find`, `insert_many` and `deleteMany` round trips, and their failures. The `MONGODB_URI` vs `MONGO_URL` mismatch in `deleteLogs` (a connection failure at run time) is left out too. The store is a map from (database, collection) to documents.
- `checkMACAddress` (it calls a model that is not part of this model) and `shutdownSystem` (it runs OS commands) are not modelled.
- Child processes, signals and timers are events of the `Tracking` state machine. The time they take and stdout/stderr logging are not modelled. The 'close' and 'exit' listeners are one `ProcessExited` event.
- `Tracking.Step`: the exit listener of a stop request still replies "Tracking stopped" after a SIGKILL. The code does this, and the model keeps it.
- Request timestamps and stored timestamps are compared as abstract instants through a `parse` parameter. JavaScript `Date` parsing and the comparison of a `Date` against a stored string are not modelled, and no claim is made that the comparison is lexicographic.
- `TelemetryStore.DeleteLogs`: a delete that matches nothing replies 200 with `deletedCount` 0. An unparsable bound or a start after the end replies 500.
- Floating point is not modelled: GB sizes, durations in minutes, CPU percentages, and the failure-prediction model with its threshold.
- psutil, scapy, socket and DNS calls are not modelled. Their results are inputs: interface lists, process snapshots, command output. Their exceptions, and a process that disappears mid-iteration, are not modelled. The one exception kept is `psutil.disk_usage` in the `lsblk` loop: whether it accepts a mount point is the parameter `usable`, and a rejection ends the loop. The sizes it returns are not modelled.
- Threads, `while True` loops, sleeps, browser termination, git-clone detection and the file watcher are not modelled. The usage loop is one pass (`CollectorHost.UsageStep`), with the clock as a parameter.
- `strftime` is a parameter (`stamp`). `DateTime` keeps only its `%Y-%m-%d` and `%H:%M:%S` renderings.
- Case mapping and whitespace are ASCII only. Python's Unicode `upper`, `lower`, `strip` and `split` are not modelled. `int()` strips whitespace and accepts an optional sign and ASCII digits. Underscores and other Unicode digits are not modelled.
- `NmcliTerse.Escape`: nmcli's terse-mode escaping of ':' and '\' is taken from nmcli's documented output format. nmcli is not part of this model.
- JavaScript object key order is modelled as first-insertion order. That is right for non-numeric keys only.
- Rendering is not modelled: chart options, styled components, toasts and audio. Alerts are values.
- Polling intervals and effect cleanup in the views are not modelled. Each poll is one call.
- `BrowserHistory.Retrieve`: the corrected pass still stores nothing when an accepted entry's timestamp has no `strftime`. The source raises there too, and only the two-item-tuple case is corrected.
- Browser-history timestamps: a timestamp with `strftime` is a `datetime`, `date` or `time`, given by its `%Y-%m-%d` and `%H:%M:%S` renderings (a `date` renders its time as 00:00:00). Other classes with a `strftime`, whose rendering `strptime` might reject, are not modelled.
- Reading the browser history from disk, and the early returns when it is missing or empty, are not modelled. The history is an input.

## Findings

| source | as written | input that shows it | evidently intended | confidence | as-written member | corrected member |
|---|---|---|---|---|---|---|
| server/controllers/macAddressController.js:82-95 | The five-second fallback kills whatever `trackingProcess` holds when it fires | start, stop (the child exits on SIGINT), start again within five seconds: the first stop's timer sends SIGKILL to the new child | the timer kills only the process it was armed for | high; not executed | Tracking.FallbackKillsNewProcess | Tracking.NextPreservesSafety |
| server/controllers/macAddressController.js:48-51 | The 'close' listener nulls `trackingProcess` whichever child closes | start, stop, the fallback releases the handle, start again, then the first child closes: the new child runs untracked and can no longer be stopped | a close clears the handle only if it is that child's | high; not executed | Tracking.ExitClearsNewHandle | Tracking.NextPreservesSafety |
| server/controllers/linuxscript.py:202 | `device.split(':')` on `nmcli -t` output, whose BSSID colons are printed escaped | `Home:AA\:BB\:CC\:DD\:EE\:FF:70` splits into 8 fields, so the network is skipped | split on unescaped ':' and unescape, giving SSID, BSSID and signal | medium (depends on nmcli's escaping); not executed | NmcliTerse.SplitOnEveryColonDropsBssid | NmcliTerse.TerseLineParsed |
| server/controllers/linuxscript.py:503-504 | `is_valid_entry` accepts tuples of length 2, then unpacks `entry[:3]` into three names | a history holding `(datetime, "https://x")`: ValueError, and the pass stores nothing | accept `(timestamp, url)` pairs, with no title | high; not executed | BrowserHistory.PairAbortsAsWritten | BrowserHistory.PairStored |
