/** The configuration records of the appliance (pydantic models in the
    source), with their field defaults. */
module Models {
  import opened Wrappers

  /** Last-known state of a camera as persisted in the configuration. */
  datatype CameraStatus = Online | Offline | Recording | Error

  /** The enum's string value, as stored in the configuration file. */
  function StatusValue(s: CameraStatus): string {
    match s
    case Online => "online"
    case Offline => "offline"
    case Recording => "recording"
    case Error => "error"
  }

  /** Parsing a stored status string; anything else is rejected. */
  function StatusFromValue(v: string): (r: Option<CameraStatus>)
    ensures r.Some? ==> StatusValue(r.value) == v
  {
    if v == "online" then Some(Online)
    else if v == "offline" then Some(Offline)
    else if v == "recording" then Some(Recording)
    else if v == "error" then Some(Error)
    else None
  }

  /** The four statuses have four distinct values, and each value parses back
      to its status. */
  lemma StatusValueRoundTrip(s: CameraStatus)
    ensures StatusFromValue(StatusValue(s)) == Some(s)
    ensures forall t: CameraStatus :: StatusValue(t) == StatusValue(s) ==> t == s
  {
  }

  datatype CameraModel = CameraModel(
    id: string,
    name: string,
    ip: string,
    port: int,
    username: string,
    password: string,
    channel: int,
    stream: int,     // 0 = main stream, 1 = sub stream
    brand: string,
    codec: string,
    enabled: bool,
    status: CameraStatus)

  /** A camera record built from the three required fields; every other field
      takes its declared default. */
  function NewCamera(id: string, name: string, ip: string): (c: CameraModel)
    ensures c.id == id && c.name == name && c.ip == ip
    ensures c.port == 554 && c.username == "admin" && c.password == ""
    ensures c.channel == 1 && c.stream == 0
    ensures c.brand == "icsee" && c.codec == "h265"
    ensures c.enabled && c.status == Offline
  {
    CameraModel(id, name, ip, 554, "admin", "", 1, 0, "icsee", "h265", true, Offline)
  }

  /** Request body for adding a camera: no id, enabled flag or status. */
  datatype CameraAdd = CameraAdd(
    name: string,
    ip: string,
    port: int,
    username: string,
    password: string,
    channel: int,
    stream: int,
    brand: string,
    codec: string)

  function NewCameraAdd(name: string, ip: string): (a: CameraAdd)
    ensures a.name == name && a.ip == ip
    ensures a.port == 554 && a.username == "admin" && a.password == ""
    ensures a.channel == 1 && a.stream == 0
    ensures a.brand == "auto" && a.codec == "auto"
  {
    CameraAdd(name, ip, 554, "admin", "", 1, 0, "auto", "auto")
  }

  /** `CameraModel(id=cam_id, **data.model_dump())`: the request's fields, the
      given id, and the model defaults for the fields the request lacks. */
  function CameraFromAdd(id: string, a: CameraAdd): (c: CameraModel)
    ensures c.id == id && c.name == a.name && c.ip == a.ip && c.port == a.port
    ensures c.username == a.username && c.password == a.password
    ensures c.channel == a.channel && c.stream == a.stream
    ensures c.brand == a.brand && c.codec == a.codec
    ensures c.enabled && c.status == Offline
  {
    var d := NewCamera(id, a.name, a.ip);
    d.(port := a.port, username := a.username, password := a.password,
       channel := a.channel, stream := a.stream, brand := a.brand, codec := a.codec)
  }

  /** Request body for editing a camera: every field optional, no status. */
  datatype CameraUpdate = CameraUpdate(
    name: Option<string>,
    ip: Option<string>,
    port: Option<int>,
    username: Option<string>,
    password: Option<string>,
    channel: Option<int>,
    stream: Option<int>,
    brand: Option<string>,
    codec: Option<string>,
    enabled: Option<bool>)

  /** The update with every field left at its default. */
  function EmptyCameraUpdate(): (u: CameraUpdate)
    ensures u.name.None? && u.ip.None? && u.port.None? && u.username.None?
    ensures u.password.None? && u.channel.None? && u.stream.None?
    ensures u.brand.None? && u.codec.None? && u.enabled.None?
  {
    CameraUpdate(None, None, None, None, None, None, None, None, None, None)
  }

  datatype RecordingSettings = RecordingSettings(
    segmentDuration: int,   // seconds per segment file
    retentionDays: int,
    recordingsPath: string)

  function DefaultRecordingSettings(): (r: RecordingSettings)
    ensures r.segmentDuration == 1800 && r.retentionDays == 7
    ensures r.recordingsPath == "recordings"
  {
    RecordingSettings(1800, 7, "recordings")
  }

  datatype TunnelMode = Disabled | Quick | Named

  function ModeValue(m: TunnelMode): string {
    match m
    case Disabled => "disabled"
    case Quick => "quick"
    case Named => "named"
  }

  function ModeFromValue(v: string): (r: Option<TunnelMode>)
    ensures r.Some? ==> ModeValue(r.value) == v
  {
    if v == "disabled" then Some(Disabled)
    else if v == "quick" then Some(Quick)
    else if v == "named" then Some(Named)
    else None
  }

  /** Three modes, three distinct values, each parsing back to its mode. */
  lemma ModeValueRoundTrip(m: TunnelMode)
    ensures ModeFromValue(ModeValue(m)) == Some(m)
    ensures forall t: TunnelMode :: ModeValue(t) == ModeValue(m) ==> t == m
  {
  }

  datatype SystemSettings = SystemSettings(
    webPort: int,
    mediamtxApiPort: int,
    mediamtxWebrtcPort: int,
    defaultUsername: string,
    defaultPassword: string,
    autoStart: bool,
    language: string,
    firstRun: bool)

  function DefaultSystemSettings(): (s: SystemSettings)
    ensures s.webPort == 8080 && s.mediamtxApiPort == 9997 && s.mediamtxWebrtcPort == 8889
    ensures s.defaultUsername == "admin" && s.defaultPassword == "12345678"
    ensures !s.autoStart && s.language == "pt-BR" && s.firstRun
  {
    SystemSettings(8080, 9997, 8889, "admin", "12345678", false, "pt-BR", true)
  }

  /** Of the cloud settings only the `enabled` flag is consumed by this model. */
  datatype CloudSettings = CloudSettings(enabled: bool)

  datatype TunnelSettings = TunnelSettings(
    mode: TunnelMode,
    publicUrl: Option<string>,
    hostname: Option<string>,
    tunnelName: Option<string>)

  datatype AppConfig = AppConfig(
    system: SystemSettings,
    recording: RecordingSettings,
    cloud: CloudSettings,
    tunnel: TunnelSettings,
    cameras: seq<CameraModel>)

  function DefaultAppConfig(): (c: AppConfig)
    ensures c.system == DefaultSystemSettings() && c.recording == DefaultRecordingSettings()
    ensures !c.cloud.enabled && c.tunnel.mode == Disabled && c.cameras == []
  {
    AppConfig(DefaultSystemSettings(), DefaultRecordingSettings(), CloudSettings(false),
              TunnelSettings(Disabled, None, None, None), [])
  }

  /** A camera found on the network, before it is added. */
  datatype DiscoveredCamera = DiscoveredCamera(
    ip: string,
    port: int,
    source: string,          // "onvif" or "scan"
    name: Option<string>,
    alreadyAdded: bool)
}
