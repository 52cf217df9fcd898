/** The recording supervisor: one recorder process per camera, tracked in
    three tables (process handle, start time, consecutive launch failures),
    plus the camera status it writes back into the configuration.

    A process is a record whose `alive` flag stands for "poll() is None"; the
    outcome of launching the recorder and the current time are parameters. */
module RecorderManager {
  import opened Wrappers
  import opened Models
  import opened Config
  import opened CameraManager
  import opened Processes

  datatype Recorder = Recorder(
    procs: map<string, Process>,
    startTimes: map<string, int>,
    failCounts: map<string, nat>)

  /** The recorder and the configuration it writes statuses into. */
  datatype State = State(rec: Recorder, config: AppConfig)

  function NewRecorder(): (r: Recorder)
    ensures r.procs == map[] && r.startTimes == map[] && r.failCounts == map[]
  {
    Recorder(map[], map[], map[])
  }

  /** Everything the three tables hold about one camera id. */
  datatype Entry = Entry(proc: Option<Process>, start: Option<int>, fails: Option<nat>)

  function EntryOf(r: Recorder, id: string): Entry {
    Entry(if id in r.procs then Some(r.procs[id]) else None,
          if id in r.startTimes then Some(r.startTimes[id]) else None,
          if id in r.failCounts then Some(r.failCounts[id]) else None)
  }

  /** `is_recording`: a handle is tracked and its process is still running. */
  predicate IsRecording(r: Recorder, id: string) {
    id in r.procs && r.procs[id].alive
  }

  lemma IsRecordingOfEntry(a: Recorder, b: Recorder, id: string)
    requires EntryOf(a, id) == EntryOf(b, id)
    ensures IsRecording(a, id) <==> IsRecording(b, id)
  {
  }

  // ---------------------------------------------------------------- start / stop

  /** `start_camera`: nothing happens while a live process is tracked; otherwise
      a launch either installs the new process (start time now, failures reset
      to 0, status RECORDING) or fails, leaving the tables alone and setting
      status ERROR. No other camera's entry changes. */
  function StartCamera(s: State, camera: CameraModel, now: int, outcome: Launch): (r: State)
    ensures IsRecording(s.rec, camera.id) ==> r == s
    ensures !IsRecording(s.rec, camera.id) && outcome.Launched? ==>
              && EntryOf(r.rec, camera.id) == Entry(Some(Process(outcome.pid, true)), Some(now), Some(0))
              && r.config == SetStatus(s.config, camera.id, Recording)
    ensures !IsRecording(s.rec, camera.id) && !outcome.Launched? ==>
              r.rec == s.rec && r.config == SetStatus(s.config, camera.id, Error)
    ensures forall k :: k != camera.id ==> EntryOf(r.rec, k) == EntryOf(s.rec, k)
    ensures IsRecording(r.rec, camera.id) <==> IsRecording(s.rec, camera.id) || outcome.Launched?
    ensures SameIds(r.config.cameras, s.config.cameras)
    ensures r.config.(cameras := s.config.cameras) == s.config
  {
    var id := camera.id;
    SetStatusKeepsIds(s.config, id, Recording, id);
    SetStatusKeepsIds(s.config, id, Error, id);
    if IsRecording(s.rec, id) then s
    else match outcome
      case Launched(pid) =>
        State(Recorder(s.rec.procs[id := Process(pid, true)],
                       s.rec.startTimes[id := now],
                       s.rec.failCounts[id := 0]),
              SetStatus(s.config, id, Recording))
      case _ => s.(config := SetStatus(s.config, id, Error))
  }

  /** `stop_camera`: the handle and start time are dropped, the failure count
      is kept, and the status becomes OFFLINE whether or not anything ran. */
  function StopCamera(s: State, id: string): (r: State)
    ensures EntryOf(r.rec, id) == Entry(None, None, EntryOf(s.rec, id).fails)
    ensures forall k :: k != id ==> EntryOf(r.rec, k) == EntryOf(s.rec, k)
    ensures r.rec.failCounts == s.rec.failCounts
    ensures !IsRecording(r.rec, id)
    ensures r.config == SetStatus(s.config, id, Offline)
    ensures SameIds(r.config.cameras, s.config.cameras)
    ensures r.config.(cameras := s.config.cameras) == s.config
  {
    SetStatusKeepsIds(s.config, id, Offline, id);
    State(Recorder(s.rec.procs - {id}, s.rec.startTimes - {id}, s.rec.failCounts),
          SetStatus(s.config, id, Offline))
  }

  /** Stopping twice is stopping once. */
  lemma StopIdempotent(s: State, id: string)
    ensures StopCamera(StopCamera(s, id), id) == StopCamera(s, id)
  {
    var once := StopCamera(s, id);
    assert once.rec.procs - {id} == once.rec.procs;
    assert once.rec.startTimes - {id} == once.rec.startTimes;
    UpdateIdempotent(s.config, id, StatusPatch(Offline));
  }

  /** `stop_all`: every tracked camera is stopped, so no handle remains; the
      start times of those cameras go, failure counts stay, and each of them
      is marked OFFLINE in the configuration. */
  method StopAll(s: State) returns (r: State)
    ensures r.rec.procs == map[]
    ensures r.rec.startTimes == s.rec.startTimes - s.rec.procs.Keys
    ensures r.rec.failCounts == s.rec.failCounts
    ensures r.config.(cameras := s.config.cameras) == s.config
    ensures SameIds(r.config.cameras, s.config.cameras)
    ensures forall j :: 0 <= j < |s.config.cameras| ==>
              r.config.cameras[j]
                == (if s.config.cameras[j].id in s.rec.procs
                       && j == FindIndex(s.config.cameras, s.config.cameras[j].id)
                    then s.config.cameras[j].(status := Offline)
                    else s.config.cameras[j])
  {
    var keys := s.rec.procs.Keys;
    var remaining := keys;
    r := s;
    while remaining != {}
      invariant remaining <= keys
      invariant StoppedSoFar(r, s, keys - remaining)
      decreases |remaining|
    {
      var id :| id in remaining;
      StopOneMore(r, s, keys - remaining, id);
      r := StopCamera(r, id);
      assert keys - (remaining - {id}) == (keys - remaining) + {id};
      remaining := remaining - {id};
    }
    assert keys - remaining == keys;
    assert r.rec.procs == map[];
  }

  /** The state after `stop_camera` on each id of `done`, in any order. */
  ghost predicate StoppedSoFar(r: State, s: State, done: set<string>) {
    && r.rec.procs == s.rec.procs - done
    && r.rec.startTimes == s.rec.startTimes - done
    && r.rec.failCounts == s.rec.failCounts
    && r.config.(cameras := s.config.cameras) == s.config
    && SameIds(r.config.cameras, s.config.cameras)
    && OfflineFor(r.config.cameras, s.config.cameras, done)
  }

  lemma StopOneMore(r: State, s: State, done: set<string>, id: string)
    requires StoppedSoFar(r, s, done)
    ensures StoppedSoFar(StopCamera(r, id), s, done + {id})
  {
    StopOneOffline(r.config, s.config.cameras, done, id);
    var after := StopCamera(r, id);
    assert after.rec.procs == s.rec.procs - (done + {id});
    assert after.rec.startTimes == s.rec.startTimes - (done + {id});
  }

  /** The cameras of `cams` whose ids are in `done` have their first entry
      marked OFFLINE in `now`; every other entry is as in `cams`. */
  ghost predicate OfflineFor(now: seq<CameraModel>, cams: seq<CameraModel>, done: set<string>) {
    && |now| == |cams|
    && forall j :: 0 <= j < |cams| ==>
         now[j] == (if cams[j].id in done && j == FindIndex(cams, cams[j].id)
                    then cams[j].(status := Offline)
                    else cams[j])
  }

  /** Marking one more id OFFLINE extends the set of stopped ids by it. */
  lemma StopOneOffline(config: AppConfig, cams: seq<CameraModel>, done: set<string>, id: string)
    requires SameIds(config.cameras, cams)
    requires OfflineFor(config.cameras, cams, done)
    ensures SameIds(SetStatus(config, id, Offline).cameras, cams)
    ensures OfflineFor(SetStatus(config, id, Offline).cameras, cams, done + {id})
  {
    var after := SetStatus(config, id, Offline);
    FindIndexSameIds(config.cameras, cams, id);
    var i := FindIndex(cams, id);
    forall j | 0 <= j < |cams|
      ensures after.cameras[j] == (if cams[j].id in done + {id} && j == FindIndex(cams, cams[j].id)
                                   then cams[j].(status := Offline)
                                   else cams[j])
    {
      if j == i {
        assert cams[j].id == id;
      }
    }
  }

  // ---------------------------------------------------------------- backoff

  /** Seconds to wait before another restart attempt, indexed by failures so far. */
  const Backoffs: seq<nat> := [5, 10, 30, 60, 300]

  /** `backoffs[min(fail_count, len(backoffs) - 1)]`: the index is clamped, so
      it is always in range. */
  function Backoff(fails: nat): (b: nat)
    ensures b in Backoffs
    ensures fails < |Backoffs| ==> b == Backoffs[fails]
    ensures fails >= |Backoffs| - 1 ==> b == 300
  {
    var i := if fails < |Backoffs| - 1 then fails else |Backoffs| - 1;
    Backoffs[i]
  }

  /** The wait never shrinks as failures accumulate, and stays within [5, 300]. */
  lemma BackoffMonotone(a: nat, b: nat)
    requires a <= b
    ensures 5 <= Backoff(a) <= Backoff(b) <= 300
  {
  }

  /** A camera with no live process is due for a restart once the backoff for
      its failure count has elapsed since its last start (a never-started
      camera counts as started at time 0, with 0 failures). */
  predicate RestartDue(r: Recorder, id: string, now: int) {
    now - Get(r.startTimes, id, 0) >= Backoff(Get(r.failCounts, id, 0))
  }

  // ---------------------------------------------------------------- supervisor passes

  /** The two passes that walk the configured cameras. */
  datatype Pass = Restart | Rollover

  /** `fail_counts[cam_id] = fail_count + 1`: only that count changes. */
  function CountFailure(s: State, id: string): (r: State)
    ensures EntryOf(r.rec, id) == EntryOf(s.rec, id).(fails := Some(Get(s.rec.failCounts, id, 0) + 1))
    ensures forall k :: k != id ==> EntryOf(r.rec, k) == EntryOf(s.rec, k)
    ensures r.config == s.config
  {
    s.(rec := s.rec.(failCounts := s.rec.failCounts[id := Get(s.rec.failCounts, id, 0) + 1]))
  }

  /** What one pass does for one camera.
      Restart (`check_and_restart`): an enabled camera without a live process
      that is due gets its failure count incremented, then a start.
      Rollover (`day_rollover`): an enabled camera that is recording is
      stopped and started again. */
  function Step(pass: Pass, s: State, camera: CameraModel, now: int, outcome: Launch): (r: State)
    ensures !camera.enabled ==> r == s
    ensures forall k :: k != camera.id ==> EntryOf(r.rec, k) == EntryOf(s.rec, k)
    ensures SameIds(r.config.cameras, s.config.cameras)
    ensures r.config.(cameras := s.config.cameras) == s.config
  {
    var id := camera.id;
    match pass
    case Restart =>
      if !camera.enabled || IsRecording(s.rec, id) || !RestartDue(s.rec, id, now) then s
      else
        StartCamera(CountFailure(s, id), camera, now, outcome)
    case Rollover =>
      if camera.enabled && IsRecording(s.rec, id) then
        StartCamera(StopCamera(s, id), camera, now, outcome)
      else s
  }

  /** One camera of `check_and_restart`: a disabled or live camera, or one whose
      backoff has not elapsed, is left alone; otherwise the failure count goes
      up by one and a launch is tried, which resets it to 0 on success. */
  lemma RestartStep(s: State, camera: CameraModel, now: int, outcome: Launch)
    ensures var r := Step(Restart, s, camera, now, outcome);
      var e := EntryOf(s.rec, camera.id);
      var fails := Get(s.rec.failCounts, camera.id, 0);
      && (!camera.enabled || IsRecording(s.rec, camera.id) || !RestartDue(s.rec, camera.id, now) ==> r == s)
      && (camera.enabled && !IsRecording(s.rec, camera.id) && RestartDue(s.rec, camera.id, now) ==>
            && (outcome.Launched? ==>
                  EntryOf(r.rec, camera.id) == Entry(Some(Process(outcome.pid, true)), Some(now), Some(0)))
            && (!outcome.Launched? ==>
                  EntryOf(r.rec, camera.id) == Entry(e.proc, e.start, Some(fails + 1)))
            && r.config == SetStatus(s.config, camera.id, if outcome.Launched? then Recording else Error))
  {
  }

  /** One camera of `day_rollover`: an enabled, recording camera is restarted
      (a fresh process with start time now and failures reset, or, if the
      launch fails, no process at all and status ERROR); any other is left alone. */
  lemma RolloverStep(s: State, camera: CameraModel, now: int, outcome: Launch)
    ensures var r := Step(Rollover, s, camera, now, outcome);
      var e := EntryOf(s.rec, camera.id);
      && (!(camera.enabled && IsRecording(s.rec, camera.id)) ==> r == s)
      && (camera.enabled && IsRecording(s.rec, camera.id) ==>
            && (outcome.Launched? ==>
                  EntryOf(r.rec, camera.id) == Entry(Some(Process(outcome.pid, true)), Some(now), Some(0)))
            && (!outcome.Launched? ==> EntryOf(r.rec, camera.id) == Entry(None, None, e.fails))
            && r.config == SetStatus(s.config, camera.id, if outcome.Launched? then Recording else Error))
  {
    if camera.enabled && IsRecording(s.rec, camera.id) {
      SetStatusOverride(s.config, camera.id, Offline, if outcome.Launched? then Recording else Error);
    }
  }

  /** What a step does to its own camera depends only on that camera's entry. */
  lemma StepIsLocal(pass: Pass, a: State, b: State, camera: CameraModel, now: int, outcome: Launch)
    requires EntryOf(a.rec, camera.id) == EntryOf(b.rec, camera.id)
    ensures EntryOf(Step(pass, a, camera, now, outcome).rec, camera.id)
         == EntryOf(Step(pass, b, camera, now, outcome).rec, camera.id)
  {
    match pass
    case Restart => RestartIsLocal(a, b, camera, now, outcome);
    case Rollover => RolloverIsLocal(a, b, camera, now, outcome);
  }

  lemma RestartIsLocal(a: State, b: State, camera: CameraModel, now: int, outcome: Launch)
    requires EntryOf(a.rec, camera.id) == EntryOf(b.rec, camera.id)
    ensures EntryOf(Step(Restart, a, camera, now, outcome).rec, camera.id)
         == EntryOf(Step(Restart, b, camera, now, outcome).rec, camera.id)
  {
    var id := camera.id;
    IsRecordingOfEntry(a.rec, b.rec, id);
    assert Get(a.rec.startTimes, id, 0) == Get(b.rec.startTimes, id, 0);
    assert Get(a.rec.failCounts, id, 0) == Get(b.rec.failCounts, id, 0);
    if camera.enabled && !IsRecording(a.rec, id) && RestartDue(a.rec, id, now) {
      StartIsLocal(CountFailure(a, id), CountFailure(b, id), camera, now, outcome);
    }
  }

  lemma RolloverIsLocal(a: State, b: State, camera: CameraModel, now: int, outcome: Launch)
    requires EntryOf(a.rec, camera.id) == EntryOf(b.rec, camera.id)
    ensures EntryOf(Step(Rollover, a, camera, now, outcome).rec, camera.id)
         == EntryOf(Step(Rollover, b, camera, now, outcome).rec, camera.id)
  {
    var id := camera.id;
    IsRecordingOfEntry(a.rec, b.rec, id);
    if camera.enabled && IsRecording(a.rec, id) {
      var a1 := StopCamera(a, id);
      var b1 := StopCamera(b, id);
      StartIsLocal(a1, b1, camera, now, outcome);
    }
  }

  lemma StartIsLocal(a: State, b: State, camera: CameraModel, now: int, outcome: Launch)
    requires EntryOf(a.rec, camera.id) == EntryOf(b.rec, camera.id)
    ensures EntryOf(StartCamera(a, camera, now, outcome).rec, camera.id)
         == EntryOf(StartCamera(b, camera, now, outcome).rec, camera.id)
  {
    IsRecordingOfEntry(a.rec, b.rec, camera.id);
  }

  /** `k` names an enabled camera of the list. */
  predicate EnabledIn(cams: seq<CameraModel>, k: string) {
    exists j :: 0 <= j < |cams| && cams[j].enabled && cams[j].id == k
  }

  /** A pass over a snapshot of the camera list, in list order; each camera's
      launch outcome comes from `launch`. */
  function Each(pass: Pass, s: State, cams: seq<CameraModel>, now: int, launch: string -> Launch): (r: State)
    ensures forall k :: !EnabledIn(cams, k) ==> EntryOf(r.rec, k) == EntryOf(s.rec, k)
    ensures SameIds(r.config.cameras, s.config.cameras)
    ensures r.config.(cameras := s.config.cameras) == s.config
    decreases |cams|
  {
    if |cams| == 0 then s
    else
      var next := Step(pass, s, cams[0], now, launch(cams[0].id));
      var r := Each(pass, next, cams[1..], now, launch);
      assert forall k :: EnabledIn(cams[1..], k) ==> EnabledIn(cams, k) by {
        forall k | EnabledIn(cams[1..], k) ensures EnabledIn(cams, k) {
          var j :| 0 <= j < |cams[1..]| && cams[1..][j].enabled && cams[1..][j].id == k;
          assert cams[j + 1] == cams[1..][j];
        }
      }
      r
  }

  /** `check_and_restart`, over the cameras configured when it begins. */
  function CheckAndRestart(s: State, now: int, launch: string -> Launch): (r: State)
    ensures forall k :: !EnabledIn(s.config.cameras, k) ==> EntryOf(r.rec, k) == EntryOf(s.rec, k)
    ensures forall k :: IsRecording(s.rec, k) ==> EntryOf(r.rec, k) == EntryOf(s.rec, k)
  {
    RestartKeepsLive(s, s.config.cameras, now, launch);
    Each(Restart, s, s.config.cameras, now, launch)
  }

  /** `day_rollover`, over the cameras configured when it begins. */
  function DayRollover(s: State, now: int, launch: string -> Launch): (r: State)
    ensures forall k :: !EnabledIn(s.config.cameras, k) ==> EntryOf(r.rec, k) == EntryOf(s.rec, k)
    ensures forall k :: !IsRecording(s.rec, k) ==> EntryOf(r.rec, k) == EntryOf(s.rec, k)
  {
    RolloverKeepsIdle(s, s.config.cameras, now, launch);
    Each(Rollover, s, s.config.cameras, now, launch)
  }

  /** The restart pass never touches a camera whose process is alive. */
  lemma {:induction false} RestartKeepsLive(s: State, cams: seq<CameraModel>, now: int, launch: string -> Launch)
    ensures forall k :: IsRecording(s.rec, k) ==>
              EntryOf(Each(Restart, s, cams, now, launch).rec, k) == EntryOf(s.rec, k)
    decreases |cams|
  {
    if |cams| > 0 {
      var next := Step(Restart, s, cams[0], now, launch(cams[0].id));
      RestartKeepsLive(next, cams[1..], now, launch);
      forall k | IsRecording(s.rec, k)
        ensures EntryOf(Each(Restart, s, cams, now, launch).rec, k) == EntryOf(s.rec, k)
      {
        assert EntryOf(next.rec, k) == EntryOf(s.rec, k);
        IsRecordingOfEntry(next.rec, s.rec, k);
      }
    }
  }

  /** The rollover pass never touches a camera that is not recording. */
  lemma {:induction false} RolloverKeepsIdle(s: State, cams: seq<CameraModel>, now: int, launch: string -> Launch)
    ensures forall k :: !IsRecording(s.rec, k) ==>
              EntryOf(Each(Rollover, s, cams, now, launch).rec, k) == EntryOf(s.rec, k)
    decreases |cams|
  {
    if |cams| > 0 {
      var next := Step(Rollover, s, cams[0], now, launch(cams[0].id));
      RolloverKeepsIdle(next, cams[1..], now, launch);
      forall k | !IsRecording(s.rec, k)
        ensures EntryOf(Each(Rollover, s, cams, now, launch).rec, k) == EntryOf(s.rec, k)
      {
        assert EntryOf(next.rec, k) == EntryOf(s.rec, k);
        IsRecordingOfEntry(next.rec, s.rec, k);
      }
    }
  }

  /** A camera whose id appears once in the list ends the pass exactly as its
      own step leaves it: the steps of the other cameras neither see nor
      change its entry. */
  lemma {:induction false} EachSingle(pass: Pass, s: State, cams: seq<CameraModel>, i: nat,
                                      now: int, launch: string -> Launch)
    requires i < |cams|
    requires forall j :: 0 <= j < |cams| && j != i ==> cams[j].id != cams[i].id
    ensures EntryOf(Each(pass, s, cams, now, launch).rec, cams[i].id)
         == EntryOf(Step(pass, s, cams[i], now, launch(cams[i].id)).rec, cams[i].id)
    decreases |cams|
  {
    var id := cams[i].id;
    var next := Step(pass, s, cams[0], now, launch(cams[0].id));
    if i == 0 {
      assert !EnabledIn(cams[1..], id) by {
        forall j | 0 <= j < |cams[1..]| ensures cams[1..][j].id != id {
          assert cams[1..][j] == cams[j + 1];
        }
      }
    } else {
      assert cams[1..][i - 1] == cams[i];
      forall j | 0 <= j < |cams[1..]| && j != i - 1 ensures cams[1..][j].id != id {
        assert cams[1..][j] == cams[j + 1];
      }
      EachSingle(pass, next, cams[1..], i - 1, now, launch);
      StepIsLocal(pass, next, s, cams[i], now, launch(id));
    }
  }

  /** `check_and_restart` on a camera configured once. */
  lemma CheckAndRestartSingle(s: State, i: nat, now: int, launch: string -> Launch)
    requires i < |s.config.cameras|
    requires forall j :: 0 <= j < |s.config.cameras| && j != i ==>
               s.config.cameras[j].id != s.config.cameras[i].id
    ensures var c := s.config.cameras[i];
      EntryOf(CheckAndRestart(s, now, launch).rec, c.id)
        == EntryOf(Step(Restart, s, c, now, launch(c.id)).rec, c.id)
  {
    EachSingle(Restart, s, s.config.cameras, i, now, launch);
  }

  /** `day_rollover` on a camera configured once. */
  lemma DayRolloverSingle(s: State, i: nat, now: int, launch: string -> Launch)
    requires i < |s.config.cameras|
    requires forall j :: 0 <= j < |s.config.cameras| && j != i ==>
               s.config.cameras[j].id != s.config.cameras[i].id
    ensures var c := s.config.cameras[i];
      EntryOf(DayRollover(s, now, launch).rec, c.id)
        == EntryOf(Step(Rollover, s, c, now, launch(c.id)).rec, c.id)
  {
    EachSingle(Rollover, s, s.config.cameras, i, now, launch);
  }

  /** Backoff in action: after two failures, started at t = 100, the camera
      waits 30 s; at t = 110 nothing happens, at t = 131 the count becomes 3
      and a launch is tried, which on success resets it to 0. */
  lemma BackoffScenario(s: State, camera: CameraModel, pid: int)
    requires camera.enabled && camera.id == "camera-1"
    requires EntryOf(s.rec, "camera-1") == Entry(Some(Process(7, false)), Some(100), Some(2))
    ensures Step(Restart, s, camera, 110, Launched(pid)) == s
    ensures EntryOf(Step(Restart, s, camera, 131, NotFound).rec, "camera-1")
         == Entry(Some(Process(7, false)), Some(100), Some(3))
    ensures EntryOf(Step(Restart, s, camera, 131, Launched(pid)).rec, "camera-1")
         == Entry(Some(Process(pid, true)), Some(131), Some(0))
  {
    assert Backoff(2) == 30;
    RestartStep(s, camera, 131, NotFound);
    RestartStep(s, camera, 131, Launched(pid));
  }
}
