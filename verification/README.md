# Sentinela core in Dafny

Sentinela is a local video recorder for IP cameras. A FastAPI server keeps one
`ffmpeg` process per enabled camera and a MediaMTX gateway for live view. A
watchdog thread restarts what has died, and a retention policy deletes old day
folders. A browser front end lists, orders and plays back the cameras and
their recordings.

This project models the core of that system as immutable data and pure
transition functions:

- **Config store.** The camera list lives in one `AppConfig` value that is
  passed in and returned. That covers get, add, remove, update with the
  non-`None` merge, and fresh-id generation with Python's `int()` parsing of
  the id suffix.
- **Recording supervisor** (`RecorderManager`). A per-camera table of process
  handle, start time and fail count, plus the clamped backoff table
  `[5, 10, 30, 60, 300]`. It covers start, stop, stop-all, the restart pass
  and the day rollover. Each call takes the clock reading `now` and the
  launch outcome (`Launched(pid)`, `NotFound`, `OtherError`) as parameters.
- **Streaming gateway** (`MediaMTXManager`). The camera map, the generated
  configuration as a value, start, stop, restart, add and remove, and the
  WebRTC and HLS URL builders.
- **Watchdog.** One tick of the loop: five checks in a fixed order inside one
  shared try block. The check that raises is an input (`fault`).
- **Retention and listing** (`storage.py`). The recordings root is an
  abstract folder tree. It supports the total size, age cleanup, the
  oldest-first emergency cleanup, the day list and the per-camera file list.
  Day folders are compared as strings. Zero-padded `YYYY-MM-DD` names
  (ISO 8601:2004, section 4.1.2.2, extended calendar date) compare in
  chronological order.
- **Server lifespan.** Start-up and shut-down as the ordered list of calls the
  lifespan handler makes. The set of subsystems whose construction raises is
  a parameter.
- **REST routes.** Status counting, camera create/edit/delete/toggle over an
  application state, marking of discovered cameras, the dates route and the
  play-path check.
- **Discovery.** The local /24 subnet, probe enumeration, port-scan
  de-duplication, ONVIF de-duplication and the merge of both sources.
- **Browser helpers.** Camera ordering, drag-and-drop reordering, wrap-around
  full-screen navigation, status badges, date and time labels, the
  recordings filter, Wi-Fi QR escaping, quick-add naming and the uptime
  label.
- **XMEye password text.** The step after MD5: the digest is folded into
  eight alphanumeric characters.

Modules follow the program: `Config`, `Models`, `CameraManager`, `Rtsp`,
`RecorderManager`, `MediaMtx`, `Watchdog`, `Storage`, `Server`, `ApiRoutes`,
`Discovery`, `CameraGrid`, `RecordingsPage`, `DiscoveryPage`, `AppPage` and
`XmHash`. Shared helpers live in `Wrappers` (`Option`), `Strings` (decimal
text, split, join), `Ordering` (Python's string order, stable insertion sort,
filter) and `IsoDate` (why string order is date order). `Processes` holds the
abstract process record.

Two behaviours of the code worth knowing; the model follows the code:

- A successful launch resets the fail count to 0 (`app/recording/recorder.py:77`).
  After a failed restart followed by a successful one, the count is 0, not
  the incremented value. Backoff grows only across consecutive failed
  launches.
- The Wi-Fi escape doubles backslashes last, so it also doubles the
  backslashes it has just inserted. `DiscoveryPage.WifiEscapeIsPerChar`
  states the resulting per-character rule. A reader of the `WIFI:` format
  takes a backslash as escaping the next character, so it reads the escape
  of ';' as a literal backslash followed by the end of the field, and the
  escape of ':' as a backslash and a colon. A network name or password
  with ';' or ':' therefore reaches the camera altered
  (`DiscoveryPage.WifiFieldRoundTrip`, `DiscoveryPage.WifiPayloadFields`).

## Model

| member | source | states |
|---|---|---|
| Models.StatusValueRoundTrip | app/models.py:8-12 | the four camera statuses have four distinct wire values, and reading a value back gives the status |
| Models.ModeValueRoundTrip | app/models.py:78-81 | the three tunnel modes have distinct wire values that read back to the same mode |
| Models.NewCamera | app/models.py:15-27 | a camera built from id, name and ip gets the defaults: port 554, user "admin", empty password, channel 1, stream 0, brand "icsee", codec "h265", enabled, offline |
| Models.NewCameraAdd | app/models.py:30-39 | an add request has no id, enabled flag or status, and defaults brand and codec to "auto" |
| Models.CameraFromAdd | app/web/api_routes.py:85 | the camera made from an add request under an id copies every field of the request and is enabled and offline |
| Models.EmptyCameraUpdate | app/models.py:42-52 | every field of an update is optional and absent by default, and an update carries no status |
| Models.DefaultRecordingSettings | app/models.py:55-58 | segments of 1800 s, 7 days of retention, folder "recordings" |
| Models.DefaultSystemSettings | app/models.py:91-99 | web port 8080, gateway API port 9997, WebRTC port 8889, default login admin/12345678, language pt-BR, first run |
| Models.DefaultAppConfig | app/models.py:102-107 | the default configuration has default settings, cloud off, tunnel disabled and no cameras |
| Config.GetCamera | app/config.py:42-47 | absent exactly when no camera has the id; otherwise the first camera with that id |
| Config.GetAfterAdd | app/config.py:50-54 | after an append, the lookup of an id finds the old first match if there was one, else the new camera when its id matches |
| Config.AddCamera | app/config.py:50-54 | appends at the end; earlier cameras and the other settings are unchanged |
| Config.RemoveCamera | app/config.py:57-61 | removes every camera with the id and keeps the rest in their order as a subsequence, each as often as it occurred |
| Config.GetAfterRemove | app/config.py:57-61 | after removal the id is not found, and lookups of other ids are unchanged |
| Config.RemoveIdempotent | app/config.py:57-61 | removing an id twice equals removing it once |
| Config.ApplyPatch | app/config.py:66-71 | each field takes the patch value when present and keeps the old value otherwise; the id never changes |
| Config.UpdateCamera | app/config.py:64-73 | only the first camera with the id changes, by the patch; with an unknown id the configuration is unchanged; the length and other settings are kept |
| Config.GetAfterUpdate | app/config.py:64-73 | after an update the lookup of that id returns the old camera with the patch applied |
| Config.UpdateIdempotent | app/config.py:64-73 | applying the same patch twice equals applying it once |
| Config.EmptyUpdateIsIdentity | app/config.py:69 | an update with every field absent changes nothing, because absent keys are dropped before the merge |
| Config.PatchOfUpdate | app/config.py:69 | the patch of an update request carries exactly the request's fields and never a status |
| Config.ParsePyIntOfIntToString | app/config.py:83 | Python's `int()` reads back the decimal text of any integer |
| Config.ParsePyInt | app/config.py:83-85 | text without a minus sign parses, when it parses at all, to a non-negative number |
| Config.ParseUnsigned | app/config.py:83-85 | digit text parses exactly when it is digit groups joined by single underscores |
| Config.NextNumber | app/config.py:76-87 | at least 1, above every parseable id suffix, and 1 for an empty list |
| Config.NextNumberIsMaxPlusOne | app/config.py:76-87 | one more than the largest parseable id suffix: above 1 it is one more than some camera's suffix, and it is 1 only when every parseable suffix is 0 |
| Config.NextCameraId | app/config.py:76-87 | "camera-" followed by that number, and "camera-1" for an empty list |
| Config.NextCameraIdFresh | app/config.py:76-87 | the generated id differs from every existing camera id |
| CameraManager.SetStatus | app/cameras/manager.py:13-16 | updating with only the status key: other fields, other cameras and other settings are unchanged |
| CameraManager.SetStatusKeepsIds | app/cameras/manager.py:13-16 | the ids and their positions are unchanged, so every later lookup finds the same camera |
| CameraManager.SetStatusOverride | app/cameras/manager.py:13-16 | a second status write replaces the first |
| CameraManager.GetAllEnabled | app/cameras/manager.py:18-21 | exactly the enabled cameras, each as often as it is configured, in configuration order, as a subsequence of the full list |
| CameraManager.GetAll | app/cameras/manager.py:23-26 | every camera in configuration order |
| Rtsp.BuildRtspUrl | app/cameras/rtsp.py:11-21 | every URL starts with "rtsp://", the ip and ':', and ends with ".sdp?real_stream"; without '&' in the ip and credentials, splitting it on '&' gives back the user, password, channel and stream fields, the credentials verbatim |
| Rtsp.BuildRtspUrlDefaults | app/cameras/rtsp.py:11-13 | the authority is the ip with port 554; without '&' in the ip the query fields are user=admin, password=12345678, channel=1 and stream=0 |
| Rtsp.UnescapedCredentialsCollide | app/cameras/rtsp.py:19 | credentials are inserted verbatim, so two different user/password pairs can produce the same URL |
| Rtsp.BuildRtspUrlFromCamera | app/cameras/rtsp.py:24-29 | the authority holds the camera's own ip and port, and the query fields carry its own user, password, channel and stream |
| RecorderManager.NewRecorder | app/recording/recorder.py:20-23 | a new supervisor tracks no process, start time or fail count |
| RecorderManager.StartCamera | app/recording/recorder.py:32-91 | a no-op while a live process exists; a launch stores the handle, sets the start time to now and the fail count to 0, and marks the camera recording; a failed launch keeps the table and marks the camera in error; other cameras are untouched |
| RecorderManager.StopCamera | app/recording/recorder.py:93-106 | drops the handle and start time, keeps the fail count, and marks the camera offline whether or not it was recording |
| RecorderManager.StopIdempotent | app/recording/recorder.py:93-106 | stopping twice equals stopping once |
| RecorderManager.StopAll | app/recording/recorder.py:108-111 | afterwards no handle is tracked, fail counts are kept, and exactly the cameras that had a handle are marked offline |
| RecorderManager.IsRecordingOfEntry | app/recording/recorder.py:113-116 | recording means a tracked handle whose process is alive, so it depends only on that camera's entry |
| RecorderManager.Backoff | app/recording/recorder.py:142-143 | the index into the backoff table is clamped, so the wait is always a table entry and 300 s from four failures on |
| RecorderManager.BackoffMonotone | app/recording/recorder.py:142-143 | the wait never shrinks as failures grow and stays between 5 and 300 s |
| RecorderManager.CountFailure | app/recording/recorder.py:147 | the fail count of that camera goes up by one, with a missing count read as 0, and nothing else changes |
| RecorderManager.RestartStep | app/recording/recorder.py:130-149 | an enabled camera without a live process whose wait has elapsed is restarted; a launch resets its count to 0, a failed launch leaves it one higher; any other camera is left alone |
| RecorderManager.RolloverStep | app/recording/recorder.py:151-158 | an enabled camera that is recording is stopped and started again; any other camera is left alone |
| RecorderManager.CheckAndRestart | app/recording/recorder.py:130-149 | disabled cameras and cameras with a live process keep their entries |
| RecorderManager.CheckAndRestartSingle | app/recording/recorder.py:130-149 | with distinct ids, each camera's entry after the pass is what its own restart step gives |
| RecorderManager.DayRollover | app/recording/recorder.py:151-158 | disabled cameras and cameras that are not recording keep their entries |
| RecorderManager.DayRolloverSingle | app/recording/recorder.py:151-158 | with distinct ids, each camera's entry after the pass is what its own rollover step gives |
| RecorderManager.BackoffScenario | app/recording/recorder.py:142-149 | after two failures a restart 10 s later is too early; 31 s later a failed launch makes three failures and a successful one resets the count to 0 |
| MediaMtx.NewGateway | app/streaming/mediamtx.py:24-26 | a new gateway has no process and no cameras |
| MediaMtx.CameraPath | app/streaming/mediamtx.py:46-58 | a camera's path reads from its RTSP URL, on demand, with a 10 s start timeout and a 30 s close delay |
| MediaMtx.GenerateConfig | app/streaming/mediamtx.py:28-64 | fixed log and listener settings (RTSP ":8554", HLS ":8888"), API and WebRTC addresses from the settings, one path per camera id plus the `all_others` catch-all with source "publisher" |
| MediaMtx.Start | app/streaming/mediamtx.py:66-88 | without the executable nothing happens; otherwise the configuration is written, and a launch stores a live process; no check for an existing process |
| MediaMtx.Stop | app/streaming/mediamtx.py:90-99 | always ends with no process, so `is_running` (IsRunning: a tracked process that is still alive, mediamtx.py:107-108) is false; termination is logged only when the process was alive |
| MediaMtx.StopIdempotent | app/streaming/mediamtx.py:90-99 | stopping twice equals stopping once |
| MediaMtx.Restart | app/streaming/mediamtx.py:101-105 | stop then start; running afterwards exactly when the executable exists and the launch succeeds |
| MediaMtx.AddCamera | app/streaming/mediamtx.py:110-116 | inserts or replaces the camera under its id; when not running nothing else changes, when running the configuration is rewritten and the gateway restarted |
| MediaMtx.RemoveCamera | app/streaming/mediamtx.py:118-123 | deletes the id (a no-op when absent) and restarts only while running |
| MediaMtx.AddWhileRunning | app/streaming/mediamtx.py:110-116 | adding to a running gateway writes the new configuration, terminates the old process, writes again and spawns |
| MediaMtx.AddThenRemove | app/streaming/mediamtx.py:110-123 | adding a new camera and removing it restores the camera map |
| MediaMtx.RequestHostName | app/streaming/mediamtx.py:125-136 | the host is the request host up to its first ':' |
| MediaMtx.WebRtcUrl | app/streaming/mediamtx.py:125-131 | an `http://` URL ending in "/", the camera id and "/whep"; split on ':' it gives the scheme, the browser's host without its port, and the configured WebRTC port with the path |
| MediaMtx.HlsUrl | app/streaming/mediamtx.py:133-136 | an `http://` URL ending in "/", the camera id and "/index.m3u8"; split on ':' it gives the scheme, the browser's host without its port, and port 8888 with the path |
| MediaMtx.UrlsIgnoreRequestPort | app/streaming/mediamtx.py:125-136 | a port in the request host does not change either URL |
| Watchdog.NewWatchdog | app/watchdog/health.py:14-19 | a new watchdog is stopped and remembers today's date |
| Watchdog.Start | app/watchdog/health.py:21-28 | starting marks it running and starts a loop only when it was not running |
| Watchdog.StartIdempotent | app/watchdog/health.py:21-28 | starting twice equals starting once, and at most one loop is started |
| Watchdog.Stop | app/watchdog/health.py:30-33 | stopping clears the running flag and keeps the remembered date |
| Watchdog.CheckDayRollover | app/watchdog/health.py:49-57 | only the recorder and camera list can change; gateway, tunnel and recordings are untouched |
| Watchdog.CheckRecorder | app/watchdog/health.py:59-63 | only the recorder and camera list can change |
| Watchdog.CheckMediaMtx | app/watchdog/health.py:65-70 | the gateway is started only when it exists, is not running and the check does not raise; nothing else changes |
| Watchdog.CheckTunnel | app/watchdog/health.py:72-80 | the tunnel is restarted exactly when it exists, its mode is not disabled, it is not running and the check does not raise |
| Watchdog.CheckDisk | app/watchdog/health.py:82-86 | only the recordings change: age cleanup first, then low-disk cleanup; a raise in the age cleanup changes nothing, a raise in the low-disk cleanup keeps the age cleanup's deletions |
| Watchdog.RunTick | app/watchdog/health.py:35-47 | a stopped watchdog does nothing; a tick runs the checks in the fixed order up to and including the one that raises, and updates the remembered date |
| Watchdog.TickTouchesOnlyCompleted | app/watchdog/health.py:35-86 | each part of the system changes only if the check in charge of it ran, and only under that check's guard; the recordings change only if the age cleanup ran to its end |
| Watchdog.FaultSkipsLaterChecks | app/watchdog/health.py:37-47 | when the recorder check raises, only the first two checks have run, and gateway, tunnel and recordings are untouched |
| Watchdog.RecorderCalls | app/watchdog/health.py:49-63 | without a fault, the recorder goes through the rollover (on a new day) and then the restart pass |
| Watchdog.RolloverAtMostOncePerDay | app/watchdog/health.py:49-57 | a second tick on the same date does not roll over again |
| Watchdog.NoRolloverOnConstructionDay | app/watchdog/health.py:18 | no rollover fires on the day the watchdog was created |
| Watchdog.DiskCleanupOrder | app/watchdog/health.py:82-86 | after a tick without a fault, the recordings are the low-disk cleanup of the age cleanup |
| Watchdog.LowDiskFaultKeepsAgeCleanup | app/watchdog/health.py:82-86 | when the low-disk cleanup raises, the tick leaves the recordings as the age cleanup left them |
| Storage.RecordingsSize | app/recording/storage.py:17-25 | the total is the sum of the file sizes under the root, and 0 for a missing root |
| Storage.CleanupOld | app/recording/storage.py:28-49 | a missing root is kept; otherwise exactly the day folders older than the cutoff whose deletion succeeds are removed |
| Storage.CleanupOldByDate | app/recording/storage.py:39-40 | for date folders, removal by age is the calendar order of the folder date and the cutoff |
| Storage.CleanupOldFrees | app/recording/storage.py:28-49 | the size after age cleanup is the old size minus the size of the removed folders |
| Storage.Evict | app/recording/storage.py:68-78 | the greedy pass visits a prefix of the folders, deletes the deletable ones of that prefix, and the free estimate grows by exactly their sizes |
| Storage.EvictVisitedWhileLow | app/recording/storage.py:69-71 | every folder visited was visited while the estimate was still below the threshold |
| Storage.CleanupIfLow | app/recording/storage.py:52-78 | does nothing when there is enough free space; otherwise it visits folders in ascending name order and removes only the deleted ones |
| Storage.EvictionIsOldestFirst | app/recording/storage.py:68-71 | every deleted folder sorts no later than every folder left unvisited |
| Storage.SortedDirs | app/recording/storage.py:68 | the folders of the root, sorted by name |
| Storage.ListDates | app/recording/storage.py:81-89 | nothing for a missing root; otherwise exactly the names of the ten-character folders |
| Storage.ListDatesNewestFirst | app/recording/storage.py:81-89 | with date-named folders, the list runs from the newest date to the oldest |
| Storage.Mp4Suffix | app/recording/storage.py:105 | a file counts as a recording exactly when its name is longer than ".mp4" and ends with it |
| Storage.DisplayName | app/recording/storage.py:110-113 | the configured camera name when the folder names a camera, else the folder name |
| Storage.ListCamera | app/recording/storage.py:98-116 | a camera's entry lists its ".mp4" files in name order with their sizes |
| Storage.ListCamerasForDate | app/recording/storage.py:92-116 | nothing for a missing root or day; otherwise one entry per camera folder of that day, in name order |
| Storage.CameraFoldersSortedEitherWay | app/recording/storage.py:100 | sorting and then keeping the folders equals keeping the folders and then sorting them |
| IsoDate.StringOrderIsChronological | app/recording/storage.py:39-40 | for zero-padded YYYY-MM-DD names, string order is calendar order and string equality is equal dates |
| Ordering.SortBy | app/recording/storage.py:68 | `sorted` by a string key: a permutation of the input, ordered by the key |
| Server.CameraOps | app/server.py:48-53 | each enabled camera gets a recorder start, followed by a gateway registration when the gateway is up; disabled cameras get neither |
| Server.RecorderStartup | app/server.py:43-56 | recorder starts happen exactly for the enabled cameras when the recorder can be built |
| Server.Startup | app/server.py:33-88 | the registered subsystems are exactly those whose construction did not raise, and the calls run in lifespan order |
| Server.StartupCameras | app/server.py:43-56 | recorder starts and gateway registrations happen exactly for the enabled cameras, and only when the subsystems they need were built |
| Server.StartupServices | app/server.py:58-88 | cloud sync starts exactly when built and enabled, the tunnel exactly when built and not disabled, and the watchdog, when built, starts last |
| Server.StartupPhasesInOrder | app/server.py:33-88 | the gateway starts before any camera, cameras before cloud, cloud before tunnel, tunnel before watchdog |
| Server.StartThenRegister | app/server.py:48-53 | with both built, each recorder start is followed at once by the gateway registration of the same camera |
| Server.ShutdownStops | app/server.py:92-103 | each subsystem is stopped exactly when it is registered |
| Server.ShutdownInOrder | app/server.py:92-103 | the stops run watchdog, tunnel, cloud sync, recorder, gateway, each at most once |
| Server.ShutdownMatchesStartup | app/server.py:33-103 | the watchdog is stopped exactly when it was built, and the gateway stopped exactly when it was started |
| ApiRoutes.CountStatuses | app/web/api_routes.py:48-58 | the status counts: total is the list length, and recording ≤ online ≤ total |
| ApiRoutes.CountsAppend | app/web/api_routes.py:48-54 | the counts of a concatenation are the sums of the counts |
| ApiRoutes.CreateCamera | app/web/api_routes.py:81-96 | the new camera gets a fresh id and is appended; with a recorder, the recorder and configuration are exactly the recorder's start of that camera on the appended configuration (other cameras' entries untouched); with a gateway, it is exactly the gateway's add of the camera, including the rewrite and restart while running |
| ApiRoutes.EditCamera | app/web/api_routes.py:99-106 | 404 and no change for an unknown id; otherwise the patched camera, with id and status kept |
| ApiRoutes.EditIdempotent | app/web/api_routes.py:99-106 | editing twice with the same request equals editing once |
| ApiRoutes.DeleteCamera | app/web/api_routes.py:109-124 | 404 and no change for an unknown id; otherwise recording stops, the gateway drops the id and the camera is removed |
| ApiRoutes.DeleteDiscardsOnlyRemovedStatus | app/web/api_routes.py:118-123 | the status the stop writes disappears with the removal, so the configuration ends as a plain removal |
| ApiRoutes.ToggleCamera | app/web/api_routes.py:127-145 | 404 and no change for an unknown id; otherwise enabled is negated, and the recorder and configuration are exactly the recorder's start of the camera when now enabled and its stop otherwise; the saved configuration is the toggled one, at most with that camera's status rewritten; the gateway is untouched |
| ApiRoutes.StatusWriteKeepsEnabled | app/web/api_routes.py:137-143 | the status write of a start or stop leaves the camera findable and keeps its enabled flag |
| ApiRoutes.MarkAlreadyAdded | app/web/api_routes.py:150-158 | each result is kept and marked exactly when its ip equals a configured camera's ip |
| ApiRoutes.MarkedAfterAdd | app/web/api_routes.py:150-158 | once a camera with that ip is added, the result is marked |
| ApiRoutes.RecordingDates | app/web/api_routes.py:171-180 | the dates route lists the same ten-character folder names as the storage listing |
| ApiRoutes.SortThenFilterDates | app/web/api_routes.py:177-179 | sorting in reverse and then keeping the date folders gives the storage listing |
| ApiRoutes.PlayRecording | app/web/api_routes.py:209-223 | 400 when any part contains "..", '/' or '\\', and 400 when the resolved path is not under the recordings folder; 404 when the file is missing; otherwise the path of the three parts |
| ApiRoutes.AcceptedPathHasThreeParts | app/web/api_routes.py:212-220 | an accepted path splits into exactly the three given parts, none of them "..", and it passed the folder check |
| ApiRoutes.DrivePartPassesComponentCheck | app/web/api_routes.py:212-220 | a drive-qualified date such as "D:" passes the component check, so only the folder check decides whether it is rejected |
| Discovery.LocalSubnet | app/cameras/discovery.py:12-22 | the first three dot fields of the local address, or nothing when there is no address or it has too few fields |
| Discovery.SubnetOfAddress | app/cameras/discovery.py:19-20 | for a four-field address the subnet is its first three fields, and the address is the subnet plus the last field |
| Discovery.Probes | app/cameras/discovery.py:41-49 | hosts .1 to .254 for every port, hosts in ascending order, with default ports [554, 8899] |
| Discovery.ScanSubnet | app/cameras/discovery.py:39-69 | one entry per ip: the first open port of that host in probe order |
| Discovery.ScanFindsSubnetHosts | app/cameras/discovery.py:59-66 | every scan entry is a host .1 to .254 of the subnet on a probed port, named "Camera " and the host number |
| Discovery.DiscoverOnvif | app/cameras/discovery.py:72-119 | distinct ips, exactly the non-empty reported hosts, nothing when the source fails |
| Discovery.Dedupe | app/cameras/discovery.py:106-112 | the kept results extend the found ones |
| Discovery.DedupeKeepsFirst | app/cameras/discovery.py:106-112 | each kept entry is the first occurrence of its ip |
| Discovery.DedupeCovers | app/cameras/discovery.py:106-112 | every ip of either list is kept |
| Discovery.DedupeDistinct | app/cameras/discovery.py:106-112 | the kept ips are pairwise distinct |
| Discovery.UniqueIdempotent | app/cameras/discovery.py:106-112 | de-duplicating twice equals de-duplicating once |
| Discovery.Discover | app/cameras/discovery.py:122-150 | distinct ips, the ONVIF results first, then the new scan results, and every ip of either source present |
| Discovery.DiscoverIsUnique | app/cameras/discovery.py:122-150 | the merge is the de-duplication of the ONVIF results followed by the scan results |
| Discovery.SourcesIsolated | app/cameras/discovery.py:128-147 | a failing source does not drop the other source's results |
| CameraGrid.SortCamerasByOrder | static/js/camera-grid.js:62-73 | unchanged for an empty order; otherwise a permutation with listed cameras first, in listed order, and unlisted ones after them |
| CameraGrid.SortKeepsEqualRanksInOrder | static/js/camera-grid.js:65-71 | the sort is stable: cameras with equal rank keep their input order |
| CameraGrid.OnCamDrop | static/js/camera-grid.js:192-216 | nothing is saved without a drag, for a drop onto itself, or for an id not on screen; otherwise a permutation with the dragged id at the target's index |
| CameraGrid.DropKeepsOthersInOrder | static/js/camera-grid.js:209-210 | apart from the dragged id, the saved list keeps the other ids in their old order |
| CameraGrid.MoveBack | static/js/camera-grid.js:209-210 | moving an element back to where it came from restores the list |
| CameraGrid.FsNavigate | static/js/camera-grid.js:875-880 | does nothing with at most one camera; otherwise the new index stays in range |
| CameraGrid.NavigateWraps | static/js/camera-grid.js:877 | forward goes to the next camera, wrapping last to first; back goes to the previous one, wrapping first to last |
| CameraGrid.NavigateForthAndBack | static/js/camera-grid.js:877 | one step forward and one back return to the same camera |
| CameraGrid.StatusBadgeHtml | static/js/camera-grid.js:225-233 | the badge of the named status, and the offline badge for any other text |
| CameraGrid.BadgeOfStatus | static/js/camera-grid.js:225-233 | each status shows its own badge, and different statuses show different badges |
| RecordingsPage.FormatDateOfDay | static/js/recordings.js:123-126 | "YYYY-MM-DD" becomes "DD/MM/YYYY" |
| RecordingsPage.FormatDateWithoutDashes | static/js/recordings.js:123-126 | text without '-' renders as "undefined/undefined/" and the text |
| RecordingsPage.FormatTime | static/js/recordings.js:128-133 | the three digit pairs of the leftmost `rec_dd-dd-dd` joined by ':', or the name unchanged when none matches |
| RecordingsPage.FormatTimeOfSegment | static/js/recordings.js:128-133 | the label of a segment the recorder named `rec_%H-%M-%S.mp4` is its start time |
| RecordingsPage.RenderFiles | static/js/recordings.js:53-65 | all cards for an empty filter, else only the card with that id; cards are shown only when one has a file |
| RecordingsPage.EmptyStateExactly | static/js/recordings.js:58-65 | the empty state shows exactly when no card passing the filter has a file |
| DiscoveryPage.WifiEscapeIsPerChar | static/js/discovery.js:280 | the three passes equal the per-character rule: ';' and ':' get two backslashes in front, a backslash becomes two |
| DiscoveryPage.WifiEscapeLength | static/js/discovery.js:280 | the text grows by two per ';' or ':' and one per backslash |
| DiscoveryPage.WifiEscapeIdentity | static/js/discovery.js:280 | text without ';', ':' or backslash is unchanged |
| DiscoveryPage.WifiFieldRoundTrip | static/js/discovery.js:279-281 | a reader of the `WIFI:` format gets an escaped field back as the original text exactly when it holds neither ';' nor ':' |
| DiscoveryPage.WifiEscapeMisreadsSemicolon | static/js/discovery.js:280 | the escape of ";" is read as a single backslash that ends the field |
| DiscoveryPage.WifiPayload | static/js/discovery.js:262-282 | nothing when the network name or password is empty; otherwise a payload starting with "WIFI:S:" and ending with ";;" |
| DiscoveryPage.WifiPayloadFields | static/js/discovery.js:262-282 | a reader of the `WIFI:` format gets back the network name and password that went in exactly when neither holds ';' or ':' |
| DiscoveryPage.PlainPayload | static/js/discovery.js:281 | plain network names and passwords appear verbatim in the payload |
| DiscoveryPage.QuickAdd | static/js/discovery.js:110-119 | the add request keeps ip and port, uses user "admin", an empty password, channel 1, stream 0 and "auto" brand and codec, and the given name when present |
| DiscoveryPage.QuickAddNamesLikeScan | static/js/discovery.js:113 | without a name the camera is named "Camera " and the last dot field, as the port scan names it |
| DiscoveryPage.QuickAddOfHost | static/js/discovery.js:113 | for a scanned host the default name is "Camera " and its host number |
| AppPage.UptimeParts | static/js/app.js:77-79 | minutes lie in 0..59, and hours and minutes bracket the uptime |
| AppPage.UptimePartsUnique | static/js/app.js:77-79 | the hours and minutes are the only pair that brackets the uptime |
| AppPage.FormatUptime | static/js/app.js:77-81 | the label ends in "m" and shows hours exactly when a full hour has passed; for a non-negative uptime they are the whole hours and the leftover whole minutes |
| AppPage.FormatUptimeUnderAnHour | static/js/app.js:80 | under an hour the label is the whole minutes alone |
| XmHash.PairValue | test_camera_login.py:22 | each pair sum modulo 62 lies below 62 |
| XmHash.XmChar | test_camera_login.py:23-28 | a value below 62 maps to a digit, an upper-case letter or a lower-case letter |
| XmHash.XmCharInjective | test_camera_login.py:23-28 | different values map to different characters |
| XmHash.XmText | test_camera_login.py:17-29 | eight alphanumeric characters, one per byte pair of the 16-byte digest, in order |
| XmHash.XmTextDeterminesPairs | test_camera_login.py:17-29 | two texts are equal exactly when the digests' pair sums agree modulo 62 |

## Left out

- Process management: `subprocess.Popen`, terminate, wait, kill and stderr pipes. A process is a record with a pid and an `alive` flag, and a launch is an outcome parameter.
- Filesystem effects (`mkdir`, `rmtree`, `rglob`, `stat`, `resolve`). The recordings root is a tree of named files and folders; each folder carries a flag saying whether its deletion succeeds.
- YAML load and save, and the fallback to defaults. The configuration is an in-memory value passed in and returned.
- Threads, `time.sleep` and loop timing. The watchdog is modelled one tick at a time, and the check that raises is an input.
- Clocks and calendar arithmetic (`time.time`, `datetime.now`, `timedelta`). The current time, today's date and the age cutoff are inputs.
- `psutil`, disk usage and float conversions to gigabytes. Free space and the threshold are integer inputs.
- Network I/O: sockets, asyncio port probes, WS-Discovery and ffprobe. Whether a port is open and which hosts ONVIF reports are inputs.
- Cloud sync and the Cloudflare tunnel. They appear only as collaborators with a running flag, a start and a restart.
- FastAPI plumbing, HTML rendering and logging.
- MD5 itself (RFC 1321) and the camera login loop. The digest is an input.
- Browser-only behaviour: DOM updates, WebRTC retries, zoom and pan, toasts and local storage. The saved camera order and the on-screen ids are inputs.
- The alternative JSON Wi-Fi payload. It embeds a random token.
- Storage.ListCamerasForDate: treats the date as the name of one day folder. A date of "", "." or ".." names the recordings folder itself or its parent in the code, which then lists that folder's subfolders as cameras; the model answers an empty list for them.
- Watchdog.RunTick: the fault input may name a check that calls nothing on that tick (a day check without a date change, a recorder check without a recorder), where the code cannot raise; these extra runs make the model more permissive, not less.
- Watchdog.CheckRecorder: a restart pass that raises is modelled as raising before it changes anything. In the code the pass can raise at a camera's start (creating its output folder) after earlier cameras were restarted and after that camera's fail count was raised, and those changes persist.
- Watchdog.CheckDayRollover: a rollover that raises is modelled as raising before it changes the recorder. In the code it can raise at a camera's start after that camera was stopped, which leaves it stopped, and after earlier cameras were rolled over.
- RecorderManager.CheckAndRestart: the clock is a whole number of seconds, so the fractional seconds of the backoff comparison are dropped.
- Storage.ListCamera: keeps each file's size in bytes instead of rounding it to megabytes with one decimal. A folder whose name ends in ".mp4" is listed with the total size of its contents, where the code reports the folder entry's own `st_size`, which depends on the file system.
- Storage.SortedDirs: sorts by Python's code-point string order; path ordering on other platforms is not modelled.
- Config.ParsePyInt: accepts ASCII digits and strips ASCII whitespace only, not the other Unicode decimal digits and whitespace (such as U+00A0) that Python's `int()` also accepts.
- CameraGrid.StatusBadgeHtml: does not model property names inherited from `Object.prototype` (such as "toString") as lookup keys.
- ApiRoutes.PlayRecording: path resolution is not modelled. Whether the resolved path lies under the resolved recordings folder is an input (`inside`). Safe components alone do not keep the path inside: a drive-qualified part such as "D:" on Windows, or a symbolic link inside the folder, can lead outside it.
- Discovery.DiscoverOnvif: an error inside the ONVIF search, caught by its outer handler, is modelled like a missing library: both give an empty result.
- MediaMtx.Restart: the one-second pause between stop and start is not modelled.
- Server.Startup: a subsystem that fails is one whose construction or start raises before it is registered. A start that raises after registration is not modelled.
- Server.Shutdown: every stop is modelled as completing. The stops have no try block, so in the code a stop that raises (the recorder's `stop_all` saving the configuration, say) skips the stops after it.
