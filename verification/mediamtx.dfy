/** The streaming-gateway supervisor: a map of cameras to publish and at
    most one gateway process, started from a configuration file generated
    from that map. The events it causes (configuration written, process
    spawned, process terminated) are kept in a log, in order. */
module MediaMtx {
  import opened Wrappers
  import opened Strings
  import opened Models
  import opened Processes
  import opened Rtsp

  /** One entry of the generated `paths` mapping; absent keys are None. */
  datatype PathConf = PathConf(
    source: string,
    sourceOnDemand: Option<bool>,
    startTimeout: Option<string>,
    closeAfter: Option<string>)

  /** The generated gateway configuration. */
  datatype MtxConfig = MtxConfig(
    logLevel: string,
    logDestinations: seq<string>,
    api: bool,
    apiAddress: string,
    rtsp: bool,
    rtspAddress: string,
    webrtc: bool,
    webrtcAddress: string,
    hls: bool,
    hlsAddress: string,
    paths: map<string, PathConf>)

  datatype Event = Wrote(config: MtxConfig) | Spawned(pid: int) | Terminated(pid: int)

  datatype Gateway = Gateway(
    process: Option<Process>,
    cameras: map<string, CameraModel>,
    log: seq<Event>)

  function NewGateway(): (g: Gateway)
    ensures g.process.None? && g.cameras == map[] && g.log == []
  {
    Gateway(None, map[], [])
  }

  /** The name of the catch-all path that accepts any published stream. */
  const CatchAll: string := "all_others"

  /** The path for one camera: pull its RTSP stream on demand. */
  function CameraPath(c: CameraModel): (p: PathConf)
    ensures p.source == BuildRtspUrlFromCamera(c)
    ensures p.sourceOnDemand == Some(true)
    ensures p.startTimeout == Some("10s") && p.closeAfter == Some("30s")
  {
    PathConf(BuildRtspUrlFromCamera(c), Some(true), Some("10s"), Some("30s"))
  }

  /** `_generate_config` as a value: fixed listeners (RTSP on 8554, HLS on
      8888), API and WebRTC addresses from the system settings, one path per
      tracked camera keyed by its id, and the catch-all path, which replaces a
      camera path of the same name. */
  function GenerateConfig(cameras: map<string, CameraModel>, sys: SystemSettings): (m: MtxConfig)
    ensures m.logLevel == "warn" && m.logDestinations == ["stdout"]
    ensures m.api && m.rtsp && m.webrtc && m.hls
    ensures m.apiAddress == ":" + IntToString(sys.mediamtxApiPort)
    ensures m.webrtcAddress == ":" + IntToString(sys.mediamtxWebrtcPort)
    ensures m.rtspAddress == ":8554" && m.hlsAddress == ":8888"
    ensures m.paths.Keys == cameras.Keys + {CatchAll}
    ensures forall id :: id in cameras && id != CatchAll ==> m.paths[id] == CameraPath(cameras[id])
    ensures m.paths[CatchAll] == PathConf("publisher", None, None, None)
  {
    var camPaths := map id | id in cameras :: CameraPath(cameras[id]);
    MtxConfig("warn", ["stdout"], true, ":" + IntToString(sys.mediamtxApiPort),
              true, ":8554", true, ":" + IntToString(sys.mediamtxWebrtcPort),
              true, ":8888", camPaths[CatchAll := PathConf("publisher", None, None, None)])
  }

  /** `is_running`: a process is tracked and still alive. */
  predicate IsRunning(g: Gateway) {
    g.process.Some? && g.process.value.alive
  }

  /** `start`: without the executable nothing happens at all; otherwise the
      configuration is written and a launch tried. A launch replaces the
      tracked process without looking at it; a failed launch keeps it. */
  function Start(g: Gateway, sys: SystemSettings, exeExists: bool, outcome: Launch): (r: Gateway)
    ensures !exeExists ==> r == g
    ensures exeExists ==> r.cameras == g.cameras
    ensures exeExists && outcome.Launched? ==>
              && r.process == Some(Process(outcome.pid, true))
              && r.log == g.log + [Wrote(GenerateConfig(g.cameras, sys)), Spawned(outcome.pid)]
    ensures exeExists && !outcome.Launched? ==>
              r.process == g.process && r.log == g.log + [Wrote(GenerateConfig(g.cameras, sys))]
    ensures exeExists && outcome.Launched? ==> IsRunning(r)
  {
    if !exeExists then g
    else
      var written := g.(log := g.log + [Wrote(GenerateConfig(g.cameras, sys))]);
      match outcome
      case Launched(pid) => written.(process := Some(Process(pid, true)), log := written.log + [Spawned(pid)])
      case _ => written
  }

  /** `stop`: a live process is terminated, a dead one merely forgotten;
      either way no process is tracked afterwards. */
  function Stop(g: Gateway): (r: Gateway)
    ensures r.process.None? && !IsRunning(r)
    ensures r.cameras == g.cameras
    ensures IsRunning(g) ==> r.log == g.log + [Terminated(g.process.value.pid)]
    ensures !IsRunning(g) ==> r.log == g.log
  {
    if IsRunning(g) then Gateway(None, g.cameras, g.log + [Terminated(g.process.value.pid)])
    else g.(process := None)
  }

  /** Stopping a stopped gateway terminates nothing. */
  lemma StopIdempotent(g: Gateway)
    ensures Stop(Stop(g)) == Stop(g)
  {
  }

  /** `restart`: stop, then start (the one-second pause is not modelled). */
  function Restart(g: Gateway, sys: SystemSettings, exeExists: bool, outcome: Launch): (r: Gateway)
    ensures r == Start(Stop(g), sys, exeExists, outcome)
    ensures r.cameras == g.cameras
    ensures IsRunning(r) <==> exeExists && outcome.Launched?
  {
    Start(Stop(g), sys, exeExists, outcome)
  }

  /** After a change of the camera map: while running, regenerate the file
      and restart; while not running, nothing but the map changes. */
  function Reload(g: Gateway, sys: SystemSettings, exeExists: bool, outcome: Launch): (r: Gateway)
    ensures !IsRunning(g) ==> r == g
    ensures IsRunning(g) ==>
              r == Restart(g.(log := g.log + [Wrote(GenerateConfig(g.cameras, sys))]), sys, exeExists, outcome)
    ensures r.cameras == g.cameras
  {
    if IsRunning(g) then
      Restart(g.(log := g.log + [Wrote(GenerateConfig(g.cameras, sys))]), sys, exeExists, outcome)
    else g
  }

  /** `add_camera`: inserts or replaces the camera under its id, then reloads. */
  function AddCamera(g: Gateway, camera: CameraModel, sys: SystemSettings,
                     exeExists: bool, outcome: Launch): (r: Gateway)
    ensures r.cameras == g.cameras[camera.id := camera]
    ensures !IsRunning(g) ==> r == g.(cameras := g.cameras[camera.id := camera])
    ensures IsRunning(g) ==> r == Reload(g.(cameras := g.cameras[camera.id := camera]), sys, exeExists, outcome)
  {
    Reload(g.(cameras := g.cameras[camera.id := camera]), sys, exeExists, outcome)
  }

  /** `remove_camera`: drops the id (absent ids are fine), then reloads. */
  function RemoveCamera(g: Gateway, id: string, sys: SystemSettings,
                        exeExists: bool, outcome: Launch): (r: Gateway)
    ensures r.cameras == g.cameras - {id}
    ensures !IsRunning(g) ==> r == g.(cameras := g.cameras - {id})
    ensures IsRunning(g) ==> r == Reload(g.(cameras := g.cameras - {id}), sys, exeExists, outcome)
  {
    Reload(g.(cameras := g.cameras - {id}), sys, exeExists, outcome)
  }

  /** While running, adding a camera writes the new map's configuration
      twice (once by the add, once by the restart's start), with the old
      process terminated in between. */
  lemma AddWhileRunning(g: Gateway, camera: CameraModel, sys: SystemSettings, pid: int)
    requires IsRunning(g)
    ensures var cfg := GenerateConfig(g.cameras[camera.id := camera], sys);
      AddCamera(g, camera, sys, true, Launched(pid)).log
        == g.log + [Wrote(cfg), Terminated(g.process.value.pid), Wrote(cfg), Spawned(pid)]
  {
  }

  /** Adding a camera the map did not hold and removing it again restores the map. */
  lemma AddThenRemove(g: Gateway, camera: CameraModel, sys: SystemSettings,
                      exeExists: bool, o1: Launch, o2: Launch)
    requires camera.id !in g.cameras
    ensures RemoveCamera(AddCamera(g, camera, sys, exeExists, o1), camera.id, sys, exeExists, o2).cameras
         == g.cameras
  {
    assert g.cameras[camera.id := camera] - {camera.id} == g.cameras;
  }

  // ---------------------------------------------------------------- playback URLs

  /** The host the browser used, without any port: `request_host.split(":")[0]`. */
  function RequestHostName(requestHost: string): (h: string)
    ensures ':' !in h
    ensures IsPrefix(h, requestHost)
    ensures h == requestHost || (|h| < |requestHost| && requestHost[|h|] == ':')
  {
    FirstField(requestHost, ':')
  }

  /** The WebRTC (WHEP) address of a camera's stream: an `http` URL whose
      host is the browser's host without its port, whose port is the
      configured WebRTC port, and whose path ends in the camera id and
      `/whep`. Split on ':' (for an id without ':') it gives back exactly the
      scheme, the host and the port with the path. */
  function WebRtcUrl(sys: SystemSettings, cameraId: string, requestHost: string): (url: string)
    ensures IsPrefix("http://", url)
    ensures IsSuffix("/" + cameraId + "/whep", url)
    ensures ':' !in cameraId ==>
              Split(url, ':') == ["http", "//" + RequestHostName(requestHost),
                                  IntToString(sys.mediamtxWebrtcPort) + ("/" + cameraId + "/whep")]
  {
    var port := IntToString(sys.mediamtxWebrtcPort);
    IntToStringFree(sys.mediamtxWebrtcPort, ':');
    HttpUrl(RequestHostName(requestHost), port, "/" + cameraId + "/whep");
    "http://" + RequestHostName(requestHost) + ":" + port + ("/" + cameraId + "/whep")
  }

  /** The HLS playlist address of a camera's stream: same host as the WebRTC
      address, the fixed HLS port 8888, and a path ending in the camera id
      and `/index.m3u8`. */
  function HlsUrl(cameraId: string, requestHost: string): (url: string)
    ensures IsPrefix("http://", url)
    ensures IsSuffix("/" + cameraId + "/index.m3u8", url)
    ensures ':' !in cameraId ==>
              Split(url, ':') == ["http", "//" + RequestHostName(requestHost),
                                  "8888/" + cameraId + "/index.m3u8"]
  {
    HttpUrl(RequestHostName(requestHost), "8888", "/" + cameraId + "/index.m3u8");
    assert "8888" + ("/" + cameraId + "/index.m3u8") == "8888/" + cameraId + "/index.m3u8";
    "http://" + RequestHostName(requestHost) + ":" + "8888" + ("/" + cameraId + "/index.m3u8")
  }

  /** The shape shared by both playback addresses. */
  lemma HttpUrl(host: string, port: string, path: string)
    requires ':' !in host && ':' !in port
    ensures IsPrefix("http://", "http://" + host + ":" + port + path)
    ensures IsSuffix(path, "http://" + host + ":" + port + path)
    ensures ':' !in path ==>
              Split("http://" + host + ":" + port + path, ':') == ["http", "//" + host, port + path]
  {
    HttpRegroup(host, port, path);
    AppendEnds("http://", host + ":" + port + path);
    AppendEnds("http://" + host + ":" + port, path);
    if ':' !in path {
      HttpFields(host, port, path);
    }
  }

  lemma HttpFields(host: string, port: string, path: string)
    requires ':' !in host && ':' !in port && ':' !in path
    requires "http://" + host + ":" + port + path == "http" + [':'] + ("//" + host) + [':'] + (port + path)
    ensures Split("http://" + host + ":" + port + path, ':') == ["http", "//" + host, port + path]
  {
    SplitThree("http", "//" + host, port + path, ':');
  }

  lemma HttpRegroup(host: string, port: string, path: string)
    ensures "http://" + host + ":" + port + path == "http://" + (host + ":" + port + path)
    ensures "http://" + host + ":" + port + path == ("http://" + host + ":" + port) + path
    ensures "http://" + host + ":" + port + path == "http" + [':'] + ("//" + host) + [':'] + (port + path)
  {
    assert "http://" == "http" + [':'] + "//";
  }

  lemma AppendEnds(a: string, b: string)
    ensures IsPrefix(a, a + b) && IsSuffix(b, a + b)
  {
    assert (a + b)[..|a|] == a;
    assert (a + b)[|a + b| - |b|..] == b;
  }

  /** The port the browser used never shows up in the playback URLs:
      `host:port` gives the same URLs as `host`. */
  lemma UrlsIgnoreRequestPort(sys: SystemSettings, cameraId: string, host: string, port: string)
    requires ':' !in host
    ensures WebRtcUrl(sys, cameraId, host + ":" + port) == WebRtcUrl(sys, cameraId, host)
    ensures HlsUrl(cameraId, host + ":" + port) == HlsUrl(cameraId, host)
  {
    HostBeforeColon(host, port);
  }

  lemma HostBeforeColon(host: string, rest: string)
    requires ':' !in host
    ensures RequestHostName(host + ":" + rest) == host
    ensures RequestHostName(host) == host
  {
    SplitCons(host, ':', rest);
    SplitNoSeparator(host, ':');
    assert host + ":" + rest == host + [':'] + rest;
  }
}
