/** The camera, discovery and recording routes of the REST API, as functions
    from the application (configuration plus the registered recorder and
    gateway) to the application after the request and the reply. HTTP
    plumbing, the file response and the settings routes are not modelled. */
module ApiRoutes {
  import opened Wrappers
  import opened Strings
  import opened Ordering
  import opened Models
  import Config
  import opened CameraManager
  import opened Processes
  import opened RecorderManager
  import MediaMtx
  import opened Storage

  /** The configuration and the subsystems a route may call into. */
  datatype App = App(config: AppConfig, recorder: Option<Recorder>, gateway: Option<MediaMtx.Gateway>)

  /** Outcomes of the process launches a route may cause, and the clock. */
  datatype Io = Io(now: int, launch: Launch, mtxExe: bool, mtxLaunch: Launch)

  /** A route's reply: the value, a 404 or a 400. */
  datatype Reply<T> = Ok(value: T) | Absent | BadRequest

  datatype Answer<T> = Answer(app: App, reply: Reply<T>)

  // ---------------------------------------------------------------- status counters

  predicate IsRecordingCam(c: CameraModel) {
    c.status == Recording
  }

  predicate IsOnlineCam(c: CameraModel) {
    c.status == Online || c.status == Recording
  }

  datatype Counts = Counts(total: nat, recording: nat, online: nat)

  /** The camera counters of `/status`: recording counts RECORDING, online
      counts ONLINE or RECORDING. */
  function CountStatuses(cams: seq<CameraModel>): (n: Counts)
    ensures n.total == |cams|
    ensures n.recording <= n.online <= n.total
    ensures n.recording == |Filter(cams, IsRecordingCam)|
    ensures n.online == |Filter(cams, IsOnlineCam)|
    decreases |cams|
  {
    if |cams| == 0 then Counts(0, 0, 0)
    else
      var rest := CountStatuses(cams[1..]);
      Counts(rest.total + 1,
             rest.recording + (if cams[0].status == Recording then 1 else 0),
             rest.online + (if cams[0].status == Online || cams[0].status == Recording then 1 else 0))
  }

  /** The counters of two camera lists add up. */
  lemma {:induction false} CountsAppend(a: seq<CameraModel>, b: seq<CameraModel>)
    ensures CountStatuses(a + b).recording == CountStatuses(a).recording + CountStatuses(b).recording
    ensures CountStatuses(a + b).online == CountStatuses(a).online + CountStatuses(b).online
    decreases |a|
  {
    if |a| == 0 {
      assert a + b == b;
    } else {
      assert (a + b)[1..] == a[1..] + b;
      CountsAppend(a[1..], b);
    }
  }

  // ---------------------------------------------------------------- create

  datatype Created = Created(app: App, camera: CameraModel)

  /** `create_camera`: the camera gets the next free id and the request's
      fields, is appended to the configuration, then handed to the recorder
      (whose status write lands on the appended camera) and to the gateway,
      each only when registered. The returned camera is the one built, still
      OFFLINE. */
  function CreateCamera(app: App, data: CameraAdd, io: Io): (r: Created)
    ensures r.camera == CameraFromAdd(Config.NextCameraId(app.config), data)
    ensures !Config.HasId(app.config.cameras, r.camera.id)
    ensures |r.app.config.cameras| == |app.config.cameras| + 1
    ensures r.app.config.cameras[..|app.config.cameras|] == app.config.cameras
    ensures r.app.config.(cameras := app.config.cameras) == app.config
    ensures r.app.config.cameras[|app.config.cameras|].(status := Offline) == r.camera
    ensures app.recorder.None? ==> r.app.config.cameras[|app.config.cameras|] == r.camera
    ensures app.recorder.Some? <==> r.app.recorder.Some?
    ensures app.recorder.Some? && !IsRecording(app.recorder.value, r.camera.id) ==>
              (IsRecording(r.app.recorder.value, r.camera.id) <==> io.launch.Launched?)
    ensures app.recorder.Some? ==>
              var s := StartCamera(State(app.recorder.value, Config.AddCamera(app.config, r.camera)),
                                   r.camera, io.now, io.launch);
              r.app.recorder == Some(s.rec) && r.app.config == s.config
    ensures app.gateway.Some? <==> r.app.gateway.Some?
    ensures app.gateway.Some? ==>
              r.app.gateway.value.cameras == app.gateway.value.cameras[r.camera.id := r.camera]
    ensures app.gateway.Some? ==>
              r.app.gateway == Some(MediaMtx.AddCamera(app.gateway.value, r.camera, r.app.config.system,
                                                       io.mtxExe, io.mtxLaunch))
  {
    var id := Config.NextCameraId(app.config);
    Config.NextCameraIdFresh(app.config);
    var camera := CameraFromAdd(id, data);
    var added := Config.AddCamera(app.config, camera);
    var n := |app.config.cameras|;
    Config.FindIndexAppend(app.config.cameras, camera, id);
    assert added.cameras == app.config.cameras + [camera];
    var started := match app.recorder
      case Some(rec) => StartCamera(State(rec, added), camera, io.now, io.launch)
      case None => State(NewRecorder(), added);
    var config := if app.recorder.Some? then started.config else added;
    var gateway := match app.gateway
      case Some(g) => Some(MediaMtx.AddCamera(g, camera, config.system, io.mtxExe, io.mtxLaunch))
      case None => None;
    Created(App(config, if app.recorder.Some? then Some(started.rec) else None, gateway), camera)
  }

  // ---------------------------------------------------------------- edit

  /** `edit_camera`: 404 for an unknown id; otherwise the fields the request
      sets (and does not set to null) are merged into the first camera with
      that id, which is returned. Recorder and gateway are not told. */
  function EditCamera(app: App, id: string, u: CameraUpdate): (r: Answer<CameraModel>)
    ensures !Config.HasId(app.config.cameras, id) ==> r == Answer(app, Absent)
    ensures Config.HasId(app.config.cameras, id) ==>
              && r.app == app.(config := Config.UpdateCamera(app.config, id, Config.PatchOfUpdate(u)))
              && r.reply == Ok(Config.ApplyPatch(Config.GetCamera(app.config, id).value, Config.PatchOfUpdate(u)))
    ensures r.reply.Ok? ==> r.reply.value.id == id && r.reply.value.status == Config.GetCamera(app.config, id).value.status
  {
    if !Config.HasId(app.config.cameras, id) then Answer(app, Absent)
    else
      var p := Config.PatchOfUpdate(u);
      var config := Config.UpdateCamera(app.config, id, p);
      Config.GetAfterUpdate(app.config, id, p);
      Answer(app.(config := config), Ok(Config.GetCamera(config, id).value))
  }

  /** Sending the same edit twice is the same as sending it once. */
  lemma EditIdempotent(app: App, id: string, u: CameraUpdate)
    ensures EditCamera(EditCamera(app, id, u).app, id, u) == EditCamera(app, id, u)
  {
    var p := Config.PatchOfUpdate(u);
    if Config.HasId(app.config.cameras, id) {
      var once := Config.UpdateCamera(app.config, id, p);
      Config.UpdateIdempotent(app.config, id, p);
      Config.GetAfterUpdate(app.config, id, p);
      Config.GetAfterUpdate(once, id, p);
      assert Config.HasId(once.cameras, id) by {
        var i := Config.FindIndex(app.config.cameras, id);
        assert once.cameras[i].id == id;
      }
    }
  }

  // ---------------------------------------------------------------- delete

  /** `delete_camera`: 404 for an unknown id; otherwise the recorder stops the
      camera, the gateway forgets it, and the configuration loaded before
      those calls is saved without every camera carrying the id. */
  function DeleteCamera(app: App, id: string, io: Io): (r: Answer<bool>)
    ensures !Config.HasId(app.config.cameras, id) ==> r == Answer(app, Absent)
    ensures Config.HasId(app.config.cameras, id) ==>
              && r.reply == Ok(true)
              && r.app.config == Config.RemoveCamera(app.config, id)
              && (app.recorder.Some? ==>
                    && r.app.recorder.Some? && !IsRecording(r.app.recorder.value, id)
                    && r.app.recorder.value == StopCamera(State(app.recorder.value, app.config), id).rec)
              && (app.recorder.None? ==> r.app.recorder.None?)
              && (app.gateway.Some? ==>
                    r.app.gateway.Some? && r.app.gateway.value.cameras == app.gateway.value.cameras - {id})
              && (app.gateway.None? ==> r.app.gateway.None?)
  {
    if !Config.HasId(app.config.cameras, id) then Answer(app, Absent)
    else
      var stopped := match app.recorder
        case Some(rec) => StopCamera(State(rec, app.config), id)
        case None => State(NewRecorder(), app.config);
      var gateway := match app.gateway
        case Some(g) => Some(MediaMtx.RemoveCamera(g, id, stopped.config.system, io.mtxExe, io.mtxLaunch))
        case None => None;
      Answer(App(Config.RemoveCamera(app.config, id),
                 if app.recorder.Some? then Some(stopped.rec) else None, gateway), Ok(true))
  }

  /** The status the recorder writes while stopping the camera is lost when
      the earlier configuration is saved, but that write only touched a camera
      the removal drops anyway: the result is the same either way. */
  lemma DeleteDiscardsOnlyRemovedStatus(config: AppConfig, id: string, status: CameraStatus)
    ensures Config.RemoveCamera(SetStatus(config, id, status), id) == Config.RemoveCamera(config, id)
  {
    var i := Config.FindIndex(config.cameras, id);
    if i < |config.cameras| {
      var cams := config.cameras;
      assert SetStatus(config, id, status).cameras == cams[i := cams[i].(status := status)];
      RemoveIdReplaced(cams, i, cams[i].(status := status), id);
    }
  }

  lemma {:induction false} RemoveIdReplaced(cams: seq<CameraModel>, i: nat, c: CameraModel, id: string)
    requires i < |cams| && cams[i].id == id && c.id == id
    ensures Config.RemoveId(cams[i := c], id) == Config.RemoveId(cams, id)
    decreases i
  {
    if i > 0 {
      assert cams[i := c][1..] == cams[1..][i - 1 := c];
      RemoveIdReplaced(cams[1..], i - 1, c, id);
    } else {
      assert cams[i := c][1..] == cams[1..];
    }
  }

  // ---------------------------------------------------------------- toggle

  /** `toggle_camera`: 404 for an unknown id; otherwise `enabled` is negated
      on the first camera with that id, and that updated camera is started
      when now enabled or stopped otherwise (only with a recorder). The reply
      is the updated camera as read before the recorder's status write. */
  function ToggleCamera(app: App, id: string, io: Io): (r: Answer<CameraModel>)
    ensures !Config.HasId(app.config.cameras, id) ==> r == Answer(app, Absent)
    ensures Config.HasId(app.config.cameras, id) ==>
              var cam := Config.GetCamera(app.config, id).value;
              var toggled := Config.UpdateCamera(app.config, id, Config.EnabledPatch(!cam.enabled));
              && r.reply == Ok(cam.(enabled := !cam.enabled))
              && r.app.gateway == app.gateway
              && (app.recorder.None? ==> r.app == app.(config := toggled))
              && (app.recorder.Some? && !cam.enabled ==>
                    r.app.recorder == Some(StartCamera(State(app.recorder.value, toggled),
                                                       cam.(enabled := true), io.now, io.launch).rec))
              && (app.recorder.Some? && !cam.enabled ==>
                    r.app.config == StartCamera(State(app.recorder.value, toggled),
                                                cam.(enabled := true), io.now, io.launch).config)
              && (app.recorder.Some? && cam.enabled ==>
                    r.app.recorder.Some? && !IsRecording(r.app.recorder.value, id))
              && (app.recorder.Some? && cam.enabled ==>
                    var s := StopCamera(State(app.recorder.value, toggled), id);
                    r.app.recorder == Some(s.rec) && r.app.config == s.config)
              && (r.app.config == toggled || exists st :: r.app.config == SetStatus(toggled, id, st))
              && Config.GetCamera(r.app.config, id).Some?
              && Config.GetCamera(r.app.config, id).value.enabled == !cam.enabled
  {
    if !Config.HasId(app.config.cameras, id) then Answer(app, Absent)
    else
      var cam := Config.GetCamera(app.config, id).value;
      var p := Config.EnabledPatch(!cam.enabled);
      var toggled := Config.UpdateCamera(app.config, id, p);
      Config.GetAfterUpdate(app.config, id, p);
      var updated := Config.GetCamera(toggled, id).value;
      assert updated == cam.(enabled := !cam.enabled);
      match app.recorder
      case None => Answer(app.(config := toggled), Ok(updated))
      case Some(rec) =>
        var s := if updated.enabled then StartCamera(State(rec, toggled), updated, io.now, io.launch)
                 else StopCamera(State(rec, toggled), id);
        StatusWriteKeepsEnabled(toggled, id, s.config);
        Answer(App(s.config, Some(s.rec), app.gateway), Ok(updated))
  }

  /** A status write by the recorder keeps the camera's `enabled` flag. */
  lemma StatusWriteKeepsEnabled(config: AppConfig, id: string, after: AppConfig)
    requires Config.HasId(config.cameras, id)
    requires after == config || exists s :: after == SetStatus(config, id, s)
    ensures Config.GetCamera(after, id).Some?
    ensures Config.GetCamera(after, id).value.enabled == Config.GetCamera(config, id).value.enabled
  {
    if after != config {
      var s :| after == SetStatus(config, id, s);
      Config.GetAfterUpdate(config, id, Config.StatusPatch(s));
    }
  }

  // ---------------------------------------------------------------- discovery marking

  /** `discover_cameras`: each result is marked `already_added` exactly when
      its ip is the ip of some configured camera; nothing else changes. */
  function MarkAlreadyAdded(found: seq<DiscoveredCamera>, cams: seq<CameraModel>): (r: seq<DiscoveredCamera>)
    ensures |r| == |found|
    ensures forall i :: 0 <= i < |r| ==> r[i].(alreadyAdded := found[i].alreadyAdded) == found[i]
    ensures forall i :: 0 <= i < |r| ==>
              (r[i].alreadyAdded <==> exists j :: 0 <= j < |cams| && cams[j].ip == found[i].ip)
  {
    var existing := set c | c in cams :: c.ip;
    assert forall ip :: ip in existing <==> exists j :: 0 <= j < |cams| && cams[j].ip == ip by {
      forall ip ensures ip in existing <==> exists j :: 0 <= j < |cams| && cams[j].ip == ip {
        if ip in existing {
          var c :| c in cams && c.ip == ip;
          var j :| 0 <= j < |cams| && cams[j] == c;
        }
      }
    }
    seq(|found|, i requires 0 <= i < |found| => found[i].(alreadyAdded := found[i].ip in existing))
  }

  /** Once a camera with some ip is configured, discovery results at that ip
      are marked as added. */
  lemma MarkedAfterAdd(found: seq<DiscoveredCamera>, config: AppConfig, camera: CameraModel, i: nat)
    requires i < |found| && found[i].ip == camera.ip
    ensures MarkAlreadyAdded(found, Config.AddCamera(config, camera).cameras)[i].alreadyAdded
  {
    var cams := Config.AddCamera(config, camera).cameras;
    assert cams[|config.cameras|].ip == found[i].ip;
  }

  // ---------------------------------------------------------------- recordings

  /** `recording_dates`: the root's entries sorted by name, newest first, keeping
      the folders whose name has 10 characters. The same list as `list_dates`. */
  function RecordingDates(root: Root): (dates: seq<string>)
    ensures dates == ListDates(root)
    ensures root.Present? ==>
              forall x :: x in dates <==> exists n :: n in root.entries && IsDateDir(n) && n.name == x
  {
    match root
    case Missing => []
    case Present(entries) =>
      var dates := Names(Filter(Reverse(SortBy(entries, NodeName)), IsDateDir));
      SortThenFilterDates(entries);
      dates
  }

  /** Sorting descending then filtering gives the names `list_dates` gives. */
  lemma SortThenFilterDates(entries: seq<Node>)
    ensures Names(Filter(Reverse(SortBy(entries, NodeName)), IsDateDir)) == ListDates(Present(entries))
  {
    var sorted := SortBy(entries, NodeName);
    FilterReverse(sorted, IsDateDir);
    FilterSortBy(entries, NodeName, IsDateDir);
    var dirs := Filter(entries, IsDateDir);
    NamesReverse(SortBy(dirs, NodeName));
    NamesSortBy(dirs);
  }

  lemma {:induction false} FilterAppend<T>(a: seq<T>, b: seq<T>, p: T -> bool)
    ensures Filter(a + b, p) == Filter(a, p) + Filter(b, p)
    decreases |a|
  {
    if |a| == 0 {
      assert a + b == b;
    } else {
      assert (a + b)[1..] == a[1..] + b;
      FilterAppend(a[1..], b, p);
    }
  }

  lemma {:induction false} FilterReverse<T>(s: seq<T>, p: T -> bool)
    ensures Filter(Reverse(s), p) == Reverse(Filter(s, p))
    decreases |s|
  {
    if |s| > 0 {
      FilterReverse(s[1..], p);
      FilterAppend(Reverse(s[1..]), [s[0]], p);
      assert [s[0]][1..] == [];
    }
  }

  lemma {:induction false} NamesAppend(a: seq<Node>, b: seq<Node>)
    ensures Names(a + b) == Names(a) + Names(b)
    decreases |a|
  {
    if |a| == 0 {
      assert a + b == b;
    } else {
      assert (a + b)[1..] == a[1..] + b;
      NamesAppend(a[1..], b);
    }
  }

  lemma {:induction false} NamesReverse(s: seq<Node>)
    ensures Names(Reverse(s)) == Reverse(Names(s))
    decreases |s|
  {
    if |s| > 0 {
      NamesReverse(s[1..]);
      NamesAppend(Reverse(s[1..]), [s[0]]);
    }
  }

  lemma NamesSorted(s: seq<Node>)
    requires SortedBy(s, NodeName)
    ensures SortedBy(Names(s), Text)
  {
  }

  lemma {:induction false} NamesInsertBy(x: Node, s: seq<Node>)
    requires SortedBy(s, NodeName)
    ensures SortedBy(Names(s), Text)
    ensures Names(InsertBy(x, s, NodeName)) == InsertBy(x.name, Names(s), Text)
    decreases |s|
  {
    NamesSorted(s);
    if |s| > 0 && !StrLe(x.name, s[0].name) {
      NamesInsertBy(x, s[1..]);
      assert Names(s)[1..] == Names(s[1..]);
    }
  }

  lemma {:induction false} NamesSortBy(s: seq<Node>)
    ensures Names(SortBy(s, NodeName)) == SortBy(Names(s), Text)
    decreases |s|
  {
    if |s| > 0 {
      NamesSortBy(s[1..]);
      NamesInsertBy(s[0], SortBy(s[1..], NodeName));
      assert Names(s)[1..] == Names(s[1..]);
    }
  }

  // ---------------------------------------------------------------- playback

  /** A path component the playback route lets through. */
  predicate SafePart(part: string) {
    !Contains(part, "..") && '/' !in part && '\\' !in part
  }

  /** `play_recording`: 400 as soon as one of date, camera and file contains
      "..", "/" or a backslash; 400 again when the resolved path does not lie
      under the resolved recordings folder; else 404 when nothing exists at
      the path, else that path. Where a path resolves to (drive letters,
      symbolic links) and whether it exists are queries on the file system,
      passed in as `inside` and `present`. */
  function PlayRecording(date: string, cameraId: string, filename: string,
                         inside: string -> bool, present: string -> bool): (r: Reply<string>)
    ensures r.BadRequest? <==>
              || !(SafePart(date) && SafePart(cameraId) && SafePart(filename))
              || !inside(date + "/" + cameraId + "/" + filename)
    ensures r.Absent? <==> !r.BadRequest? && !present(date + "/" + cameraId + "/" + filename)
    ensures r.Ok? ==> && r.value == date + "/" + cameraId + "/" + filename
                      && inside(r.value) && present(r.value)
  {
    if !SafePart(date) || !SafePart(cameraId) || !SafePart(filename) then BadRequest
    else
      var path := date + "/" + cameraId + "/" + filename;
      if !inside(path) then BadRequest
      else if !present(path) then Absent
      else Ok(path)
  }

  /** An accepted path has exactly the three given components, none of them
      "..", and it passed the folder check. */
  lemma AcceptedPathHasThreeParts(date: string, cameraId: string, filename: string,
                                  inside: string -> bool, present: string -> bool)
    requires PlayRecording(date, cameraId, filename, inside, present).Ok?
    ensures Split(PlayRecording(date, cameraId, filename, inside, present).value, '/') == [date, cameraId, filename]
    ensures forall k :: 0 <= k < 3 ==> [date, cameraId, filename][k] != ".."
    ensures inside(PlayRecording(date, cameraId, filename, inside, present).value)
  {
    SplitThree(date, cameraId, filename, '/');
    assert date + "/" + cameraId + "/" + filename == date + ['/'] + cameraId + ['/'] + filename;
    ParentIsUnsafe();
  }

  /** The component check alone lets a drive-qualified part such as "D:"
      through; only the folder check can reject it. */
  lemma DrivePartPassesComponentCheck(cameraId: string, filename: string,
                                      inside: string -> bool, present: string -> bool)
    requires SafePart(cameraId) && SafePart(filename)
    ensures SafePart("D:")
    ensures PlayRecording("D:", cameraId, filename, inside, present).BadRequest? <==>
              !inside("D:/" + cameraId + "/" + filename)
  {
    assert "D:"[..2][0] == 'D';
    assert "D:"[1..] == ":" && ":"[1..] == "";
    assert !Contains("", "..");
    assert "D:" + "/" + cameraId + "/" + filename == "D:/" + cameraId + "/" + filename;
  }

  lemma ParentIsUnsafe()
    ensures !SafePart("..")
  {
    assert IsPrefix("..", "..");
  }
}
