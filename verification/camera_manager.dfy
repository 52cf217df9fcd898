/** Status bookkeeping and the enabled-camera query over the configuration. */
module CameraManager {
  import opened Ordering
  import opened Models
  import opened Config

  /** Records a camera's status by merging `{"status": status}` into the first
      camera carrying `id`: that camera's status is the only thing that changes. */
  function SetStatus(config: AppConfig, id: string, status: CameraStatus): (r: AppConfig)
    ensures |r.cameras| == |config.cameras|
    ensures r.(cameras := config.cameras) == config
    ensures forall j :: 0 <= j < |config.cameras| ==>
              r.cameras[j] == (if j == FindIndex(config.cameras, id)
                               then config.cameras[j].(status := status)
                               else config.cameras[j])
  {
    UpdateCamera(config, id, StatusPatch(status))
  }

  /** Setting a status keeps every camera's id, so lookups by id find the same position. */
  lemma SetStatusKeepsIds(config: AppConfig, id: string, status: CameraStatus, other: string)
    ensures SameIds(SetStatus(config, id, status).cameras, config.cameras)
    ensures FindIndex(SetStatus(config, id, status).cameras, other) == FindIndex(config.cameras, other)
  {
    FindIndexSameIds(SetStatus(config, id, status).cameras, config.cameras, other);
  }

  /** A later status write overrides an earlier one for the same id. */
  lemma SetStatusOverride(config: AppConfig, id: string, first: CameraStatus, second: CameraStatus)
    ensures SetStatus(SetStatus(config, id, first), id, second) == SetStatus(config, id, second)
  {
    var mid := SetStatus(config, id, first);
    FindIndexSameIds(mid.cameras, config.cameras, id);
    var i := FindIndex(config.cameras, id);
    if i < |config.cameras| {
      assert mid.cameras == config.cameras[i := config.cameras[i].(status := first)];
    }
  }

  predicate SameIds(a: seq<CameraModel>, b: seq<CameraModel>) {
    |a| == |b| && forall j :: 0 <= j < |a| ==> a[j].id == b[j].id
  }

  lemma {:induction false} FindIndexSameIds(a: seq<CameraModel>, b: seq<CameraModel>, id: string)
    requires SameIds(a, b)
    ensures FindIndex(a, id) == FindIndex(b, id)
    decreases |a|
  {
    if |a| > 0 {
      FindIndexSameIds(a[1..], b[1..], id);
    }
  }

  predicate IsEnabled(c: CameraModel) {
    c.enabled
  }

  /** `[c for c in config.cameras if c.enabled]`. */
  function GetAllEnabled(config: AppConfig): (r: seq<CameraModel>)
    ensures forall c :: c in r <==> c in config.cameras && c.enabled
    ensures forall c :: multiset(r)[c] == if c.enabled then multiset(config.cameras)[c] else 0
    ensures IsSubsequence(r, GetAll(config))
  {
    FilterIsSubsequence(config.cameras, IsEnabled);
    forall c ensures multiset(Filter(config.cameras, IsEnabled))[c] == if c.enabled then multiset(config.cameras)[c] else 0 {
      FilterCount(config.cameras, IsEnabled, c);
    }
    Filter(config.cameras, IsEnabled)
  }

  /** Every configured camera, in configuration order. */
  function GetAll(config: AppConfig): (r: seq<CameraModel>)
    ensures |r| == |config.cameras|
    ensures forall j :: 0 <= j < |r| ==> r[j] == config.cameras[j]
  {
    config.cameras
  }
}
