/** Start-up and shut-down of the application's subsystems, as the ordered
    list of calls the lifespan handler makes on them.

    Each subsystem is set up in its own try block; one whose construction
    raises (the set `broken`) is logged and left unregistered, and set-up
    carries on with the next. Shut-down stops, in a fixed order, exactly the
    subsystems that were registered. */
module Server {
  import opened Models

  datatype Subsystem = MediaSub | RecorderSub | CloudSub | TunnelSub | WatchdogSub

  datatype Op =
    | MtxStart
    | RecStart(id: string)
    | MtxAdd(id: string)
    | CloudStart
    | TunnelStart(mode: TunnelMode)
    | WatchdogStart
    | WatchdogStop
    | TunnelStop
    | CloudStop
    | RecStopAll
    | MtxStop

  datatype Boot = Boot(ops: seq<Op>, registered: set<Subsystem>)

  predicate IsCameraOp(op: Op) {
    op.RecStart? || op.MtxAdd?
  }

  predicate EnabledId(cams: seq<CameraModel>, id: string) {
    exists j :: 0 <= j < |cams| && cams[j].enabled && cams[j].id == id
  }

  /** The recorder's loop over the configured cameras: every enabled camera is
      started and then, when the gateway is registered, added to it. */
  function CameraOps(cams: seq<CameraModel>, withGateway: bool): (ops: seq<Op>)
    ensures forall k :: 0 <= k < |ops| ==> IsCameraOp(ops[k])
    ensures forall id :: RecStart(id) in ops <==> EnabledId(cams, id)
    ensures forall id :: MtxAdd(id) in ops <==> withGateway && EnabledId(cams, id)
    ensures withGateway ==> AddFollowsStart(ops)
    decreases |cams|
  {
    if |cams| == 0 then []
    else
      var c := cams[0];
      var mine := if !c.enabled then [] else if withGateway then [RecStart(c.id), MtxAdd(c.id)] else [RecStart(c.id)];
      var rest := CameraOps(cams[1..], withGateway);
      EnabledIdCons(cams);
      AddFollowsAppend(mine, rest, withGateway);
      mine + rest
  }

  /** Every start is directly followed by the matching registration. */
  ghost predicate AddFollowsStart(ops: seq<Op>) {
    && (forall k :: 0 <= k < |ops| && ops[k].RecStart? ==> k + 1 < |ops|)
    && (forall k, l {:trigger ops[k], ops[l]} :: 0 <= k && l == k + 1 && l < |ops| && ops[k].RecStart? ==>
          ops[l] == MtxAdd(ops[k].id))
  }

  lemma EnabledIdCons(cams: seq<CameraModel>)
    requires |cams| > 0
    ensures forall id :: EnabledId(cams, id) <==> (cams[0].enabled && cams[0].id == id) || EnabledId(cams[1..], id)
  {
    forall id ensures EnabledId(cams, id) <==> (cams[0].enabled && cams[0].id == id) || EnabledId(cams[1..], id) {
      if EnabledId(cams[1..], id) {
        var j :| 0 <= j < |cams[1..]| && cams[1..][j].enabled && cams[1..][j].id == id;
        assert cams[j + 1] == cams[1..][j];
      }
      if EnabledId(cams, id) && !(cams[0].enabled && cams[0].id == id) {
        var j :| 0 <= j < |cams| && cams[j].enabled && cams[j].id == id;
        assert j > 0 && cams[1..][j - 1] == cams[j];
      }
    }
  }

  lemma AddFollowsAppend(mine: seq<Op>, rest: seq<Op>, withGateway: bool)
    requires withGateway ==> AddFollowsStart(rest)
    requires withGateway ==> AddFollowsStart(mine)
    ensures withGateway ==> AddFollowsStart(mine + rest)
  {
    if withGateway {
      var ops := mine + rest;
      forall k | 0 <= k < |ops| && ops[k].RecStart?
        ensures k + 1 < |ops| && ops[k + 1] == MtxAdd(ops[k].id)
      {
        if k >= |mine| {
          assert ops[k] == rest[k - |mine|];
          assert rest[k - |mine| + 1] == MtxAdd(rest[k - |mine|].id);
          assert ops[k + 1] == rest[k + 1 - |mine|];
        } else {
          assert ops[k] == mine[k];
          assert mine[k + 1] == MtxAdd(mine[k].id);
          assert ops[k + 1] == mine[k + 1];
        }
      }
    }
  }

  /** The step of start-up an operation belongs to. */
  function Phase(op: Op): nat {
    match op
    case MtxStart => 0
    case RecStart(_) => 1
    case MtxAdd(_) => 1
    case CloudStart => 2
    case TunnelStart(_) => 3
    case WatchdogStart => 4
    case WatchdogStop => 5
    case TunnelStop => 6
    case CloudStop => 7
    case RecStopAll => 8
    case MtxStop => 9
  }

  /** Each operation's step is no earlier than the one before it. */
  predicate InPhaseOrder(ops: seq<Op>)
    decreases |ops|
  {
    |ops| <= 1 || (Phase(ops[0]) <= Phase(ops[1]) && InPhaseOrder(ops[1..]))
  }

  predicate PhasesWithin(ops: seq<Op>, lo: nat, hi: nat) {
    forall op :: op in ops ==> lo <= Phase(op) <= hi
  }

  lemma {:induction false} AppendInPhaseOrder(x: seq<Op>, y: seq<Op>, p: nat)
    requires InPhaseOrder(x) && InPhaseOrder(y)
    requires forall op :: op in x ==> Phase(op) <= p
    requires forall op :: op in y ==> p <= Phase(op)
    ensures InPhaseOrder(x + y)
    decreases |x|
  {
    if |x| == 0 {
      assert x + y == y;
    } else {
      assert (x + y)[1..] == x[1..] + y;
      if |x| == 1 {
        if |y| > 0 {
          assert y[0] in y;
        }
      } else {
        assert x[1] in x;
      }
      AppendInPhaseOrder(x[1..], y, p);
    }
  }

  /** Adjacent order gives order between any two positions. */
  lemma {:induction false} InPhaseOrderPairs(ops: seq<Op>)
    requires InPhaseOrder(ops)
    ensures forall a, b :: 0 <= a < b < |ops| ==> Phase(ops[a]) <= Phase(ops[b])
    decreases |ops|
  {
    if |ops| > 1 {
      InPhaseOrderPairs(ops[1..]);
      forall a, b | 0 <= a < b < |ops| ensures Phase(ops[a]) <= Phase(ops[b]) {
        if a > 0 {
          assert ops[a] == ops[1..][a - 1] && ops[b] == ops[1..][b - 1];
        } else if b > 1 {
          assert ops[1] == ops[1..][0] && ops[b] == ops[1..][b - 1];
        }
      }
    }
  }

  function Opt(on: bool, op: Op): (ops: seq<Op>)
    ensures forall x :: x in ops <==> on && x == op
    ensures InPhaseOrder(ops)
    ensures on ==> ops == [op]
  {
    if on then [op] else []
  }

  /** The last two start-up steps: the tunnel, started only in a mode other
      than disabled, then the watchdog; each skipped when its construction
      raises. */
  function FinalStartup(config: AppConfig, broken: set<Subsystem>): (ops: seq<Op>)
    ensures PhasesWithin(ops, 3, 4)
    ensures InPhaseOrder(ops)
  {
    var tunnel := Opt(TunnelSub !in broken && config.tunnel.mode != Disabled, TunnelStart(config.tunnel.mode));
    var watchdog := Opt(WatchdogSub !in broken, WatchdogStart);
    AppendInPhaseOrder(tunnel, watchdog, 3);
    tunnel + watchdog
  }

  /** Start-up after the recorder: cloud sync, registered always but started
      only when enabled, then the final steps. */
  function LaterStartup(config: AppConfig, broken: set<Subsystem>): (ops: seq<Op>)
    ensures PhasesWithin(ops, 2, 4)
    ensures InPhaseOrder(ops)
  {
    var cloud := Opt(CloudSub !in broken && config.cloud.enabled, CloudStart);
    var final := FinalStartup(config, broken);
    AppendInPhaseOrder(cloud, final, 2);
    cloud + final
  }

  /** The final steps start the tunnel in a mode other than disabled, then
      the watchdog, each unless its construction raised. */
  lemma FinalStartupStarts(config: AppConfig, broken: set<Subsystem>)
    ensures var ops := FinalStartup(config, broken);
      && (forall m :: TunnelStart(m) in ops <==>
            TunnelSub !in broken && config.tunnel.mode != Disabled && m == config.tunnel.mode)
      && (WatchdogStart in ops <==> WatchdogSub !in broken)
      && (WatchdogSub !in broken ==> |ops| > 0 && ops[|ops| - 1] == WatchdogStart)
      && CloudStart !in ops
  {
    var tunnel := Opt(TunnelSub !in broken && config.tunnel.mode != Disabled, TunnelStart(config.tunnel.mode));
    var watchdog := Opt(WatchdogSub !in broken, WatchdogStart);
    LastOfAppend(tunnel, watchdog);
  }

  /** What the later steps start: cloud sync when enabled, the tunnel in a
      mode other than disabled, and the watchdog last, each unless broken. */
  lemma LaterStartupStarts(config: AppConfig, broken: set<Subsystem>)
    ensures var ops := LaterStartup(config, broken);
      && (CloudStart in ops <==> CloudSub !in broken && config.cloud.enabled)
      && (forall m :: TunnelStart(m) in ops <==>
            TunnelSub !in broken && config.tunnel.mode != Disabled && m == config.tunnel.mode)
      && (WatchdogStart in ops <==> WatchdogSub !in broken)
      && (WatchdogSub !in broken ==> |ops| > 0 && ops[|ops| - 1] == WatchdogStart)
  {
    var cloud := Opt(CloudSub !in broken && config.cloud.enabled, CloudStart);
    var final := FinalStartup(config, broken);
    FinalStartupStarts(config, broken);
    LastOfAppend(cloud, final);
  }

  /** The recorder step of start-up: registered before its loop, so its
      cameras are started even when the gateway is missing, but then not
      registered with the gateway. */
  function RecorderStartup(config: AppConfig, broken: set<Subsystem>): (ops: seq<Op>)
    ensures PhasesWithin(ops, 1, 1) && InPhaseOrder(ops)
    ensures forall id :: RecStart(id) in ops <==> RecorderSub !in broken && EnabledId(config.cameras, id)
    ensures forall id :: MtxAdd(id) in ops <==>
              RecorderSub !in broken && MediaSub !in broken && EnabledId(config.cameras, id)
    ensures RecorderSub in broken ==> ops == []
    ensures RecorderSub !in broken ==> ops == CameraOps(config.cameras, MediaSub !in broken)
  {
    var rec := if RecorderSub in broken then [] else CameraOps(config.cameras, MediaSub !in broken);
    forall op | op in rec ensures Phase(op) == 1 {
      var k :| 0 <= k < |rec| && rec[k] == op;
      assert IsCameraOp(rec[k]);
    }
    CameraOpsInOrder(rec);
    rec
  }

  /** The start-up half of `lifespan`: the gateway is started before any
      camera is touched, then the recorder's cameras, then the later
      subsystems. A subsystem whose construction raises stays unregistered
      without stopping the rest. */
  function Startup(config: AppConfig, broken: set<Subsystem>): (b: Boot)
    ensures b.registered == {MediaSub, RecorderSub, CloudSub, TunnelSub, WatchdogSub} - broken
    ensures InPhaseOrder(b.ops)
    ensures MtxStart in b.ops <==> MediaSub !in broken
    ensures MediaSub !in broken ==> |b.ops| > 0 && b.ops[0] == MtxStart
  {
    var media := Opt(MediaSub !in broken, MtxStart);
    var rec := RecorderStartup(config, broken);
    var later := LaterStartup(config, broken);
    AppendInPhaseOrder(rec, later, 1);
    AppendInPhaseOrder(media, rec + later, 0);
    NoGatewayStart(rec, 1, 1);
    NoGatewayStart(later, 2, 4);
    FirstOfAppend(media, rec + later);
    Boot(media + (rec + later), {MediaSub, RecorderSub, CloudSub, TunnelSub, WatchdogSub} - broken)
  }

  /** The cameras start-up touches: every enabled camera is started when the
      recorder came up, and also registered when the gateway did too. */
  lemma StartupCameras(config: AppConfig, broken: set<Subsystem>)
    ensures var ops := Startup(config, broken).ops;
      && (forall id :: RecStart(id) in ops <==> RecorderSub !in broken && EnabledId(config.cameras, id))
      && (forall id :: MtxAdd(id) in ops <==>
            RecorderSub !in broken && MediaSub !in broken && EnabledId(config.cameras, id))
  {
    var media := Opt(MediaSub !in broken, MtxStart);
    var rec := RecorderStartup(config, broken);
    var later := LaterStartup(config, broken);
    assert Startup(config, broken).ops == media + (rec + later);
    NoCameraOps(later, 2, 4);
    NoCameraOps(media, 0, 0);
  }

  /** The services start-up starts: cloud sync when enabled, the tunnel in a
      mode other than disabled, and the watchdog, last, each unless its
      construction raised. */
  lemma StartupServices(config: AppConfig, broken: set<Subsystem>)
    ensures var ops := Startup(config, broken).ops;
      && (CloudStart in ops <==> CloudSub !in broken && config.cloud.enabled)
      && (forall m :: TunnelStart(m) in ops <==>
            TunnelSub !in broken && config.tunnel.mode != Disabled && m == config.tunnel.mode)
      && (WatchdogStart in ops <==> WatchdogSub !in broken)
      && (WatchdogSub !in broken ==> |ops| > 0 && ops[|ops| - 1] == WatchdogStart)
  {
    var media := Opt(MediaSub !in broken, MtxStart);
    var rec := RecorderStartup(config, broken);
    var later := LaterStartup(config, broken);
    assert Startup(config, broken).ops == media + (rec + later);
    LaterStartupStarts(config, broken);
    NotLaterOps(media, 0, 0);
    NotLaterOps(rec, 1, 1);
    LastOfAppend(rec, later);
    LastOfAppend(media, rec + later);
  }

  lemma FirstOfAppend(x: seq<Op>, y: seq<Op>)
    ensures |x| > 0 ==> (x + y)[0] == x[0]
  {
  }

  lemma LastOfAppend(x: seq<Op>, y: seq<Op>)
    ensures |y| > 0 ==> (x + y)[|x + y| - 1] == y[|y| - 1]
  {
  }

  lemma NotLaterOps(ops: seq<Op>, lo: nat, hi: nat)
    requires PhasesWithin(ops, lo, hi) && hi < 2
    ensures CloudStart !in ops && WatchdogStart !in ops
    ensures forall m :: TunnelStart(m) !in ops
  {
    forall m ensures TunnelStart(m) !in ops {
      assert Phase(TunnelStart(m)) == 3;
    }
    assert Phase(CloudStart) == 2 && Phase(WatchdogStart) == 4;
  }

  lemma NoCameraOps(ops: seq<Op>, lo: nat, hi: nat)
    requires PhasesWithin(ops, lo, hi) && (hi < 1 || lo > 1)
    ensures forall id :: RecStart(id) !in ops && MtxAdd(id) !in ops
  {
    forall id ensures RecStart(id) !in ops && MtxAdd(id) !in ops {
      assert Phase(RecStart(id)) == 1 && Phase(MtxAdd(id)) == 1;
    }
  }

  lemma NoGatewayStart(ops: seq<Op>, lo: nat, hi: nat)
    requires PhasesWithin(ops, lo, hi) && lo > 0
    ensures MtxStart !in ops
  {
    assert Phase(MtxStart) == 0;
  }

  lemma {:induction false} CameraOpsInOrder(ops: seq<Op>)
    requires forall k :: 0 <= k < |ops| ==> IsCameraOp(ops[k])
    ensures InPhaseOrder(ops)
    decreases |ops|
  {
    if |ops| > 1 {
      CameraOpsInOrder(ops[1..]);
    }
  }

  /** Any two start-up operations come in the order of their steps: the
      gateway start before every camera operation, those before cloud sync,
      the tunnel and the watchdog. */
  lemma StartupPhasesInOrder(config: AppConfig, broken: set<Subsystem>)
    ensures var ops := Startup(config, broken).ops;
      forall a, b :: 0 <= a < b < |ops| ==> Phase(ops[a]) <= Phase(ops[b])
  {
    InPhaseOrderPairs(Startup(config, broken).ops);
  }

  /** Each enabled camera's start is directly followed by its registration
      with the gateway when the gateway came up. */
  lemma StartThenRegister(config: AppConfig, broken: set<Subsystem>, k: nat)
    requires RecorderSub !in broken && MediaSub !in broken
    requires k < |Startup(config, broken).ops| && Startup(config, broken).ops[k].RecStart?
    ensures var ops := Startup(config, broken).ops;
      k + 1 < |ops| && ops[k + 1] == MtxAdd(ops[k].id)
  {
    var rec := RecorderStartup(config, broken);
    var later := LaterStartup(config, broken);
    var ops := Startup(config, broken).ops;
    assert ops == [MtxStart] + (rec + later);
    assert k > 0;
    if k - 1 >= |rec| {
      assert false;
    } else {
      assert ops[k] == rec[k - 1];
      assert rec[k] == MtxAdd(rec[k - 1].id);
      assert ops[k + 1] == rec[k];
    }
  }

  /** The subsystems in the order shut-down visits them. */
  const StopOrder: seq<Subsystem> := [WatchdogSub, TunnelSub, CloudSub, RecorderSub, MediaSub]

  function StopOp(sub: Subsystem): Op {
    match sub
    case WatchdogSub => WatchdogStop
    case TunnelSub => TunnelStop
    case CloudSub => CloudStop
    case RecorderSub => RecStopAll
    case MediaSub => MtxStop
  }

  /** One `if ... in _app_state` check per subsystem, in the given order. */
  function Stops(subs: seq<Subsystem>, registered: set<Subsystem>): seq<Op>
    decreases |subs|
  {
    if |subs| == 0 then []
    else (if subs[0] in registered then [StopOp(subs[0])] else []) + Stops(subs[1..], registered)
  }

  /** The shut-down half of `lifespan`: each registered subsystem is stopped,
      watchdog first, then tunnel, cloud sync, recorder, and gateway last. */
  function Shutdown(registered: set<Subsystem>): seq<Op> {
    Stops(StopOrder, registered)
  }

  lemma {:induction false} StopsMembers(subs: seq<Subsystem>, registered: set<Subsystem>, x: Subsystem)
    ensures StopOp(x) in Stops(subs, registered) <==> x in subs && x in registered
    decreases |subs|
  {
    if |subs| > 0 {
      StopsMembers(subs[1..], registered, x);
      assert subs == [subs[0]] + subs[1..];
    }
  }

  /** Shut-down stops exactly the registered subsystems. */
  lemma ShutdownStops(registered: set<Subsystem>)
    ensures var ops := Shutdown(registered);
      && (WatchdogStop in ops <==> WatchdogSub in registered)
      && (TunnelStop in ops <==> TunnelSub in registered)
      && (CloudStop in ops <==> CloudSub in registered)
      && (RecStopAll in ops <==> RecorderSub in registered)
      && (MtxStop in ops <==> MediaSub in registered)
  {
    StopsMembers(StopOrder, registered, WatchdogSub);
    StopsMembers(StopOrder, registered, TunnelSub);
    StopsMembers(StopOrder, registered, CloudSub);
    StopsMembers(StopOrder, registered, RecorderSub);
    StopsMembers(StopOrder, registered, MediaSub);
  }

  /** Each operation's step is strictly later than the one before it. */
  predicate StrictChain(ops: seq<Op>)
    decreases |ops|
  {
    |ops| <= 1 || (Phase(ops[0]) < Phase(ops[1]) && StrictChain(ops[1..]))
  }

  predicate IncreasingStops(subs: seq<Subsystem>)
    decreases |subs|
  {
    |subs| <= 1 || (Phase(StopOp(subs[0])) < Phase(StopOp(subs[1])) && IncreasingStops(subs[1..]))
  }

  lemma {:induction false} StopsChain(subs: seq<Subsystem>, registered: set<Subsystem>)
    requires IncreasingStops(subs)
    ensures StrictChain(Stops(subs, registered))
    ensures |subs| > 0 && |Stops(subs, registered)| > 0 ==>
              Phase(StopOp(subs[0])) <= Phase(Stops(subs, registered)[0])
    decreases |subs|
  {
    if |subs| > 0 {
      var rest := Stops(subs[1..], registered);
      StopsChain(subs[1..], registered);
      if |subs| > 1 && |rest| > 0 {
        assert Phase(StopOp(subs[0])) < Phase(rest[0]);
      }
      if |subs| == 1 {
        assert rest == [];
      }
      if subs[0] in registered {
        var r := [StopOp(subs[0])] + rest;
        assert Stops(subs, registered) == r;
        assert r[1..] == rest;
      } else {
        assert Stops(subs, registered) == rest;
      }
    }
  }

  lemma {:induction false} StrictChainPairs(ops: seq<Op>)
    requires StrictChain(ops)
    ensures forall a, b :: 0 <= a < b < |ops| ==> Phase(ops[a]) < Phase(ops[b])
    decreases |ops|
  {
    if |ops| > 1 {
      StrictChainPairs(ops[1..]);
      forall a, b | 0 <= a < b < |ops| ensures Phase(ops[a]) < Phase(ops[b]) {
        if a > 0 {
          assert ops[a] == ops[1..][a - 1] && ops[b] == ops[1..][b - 1];
        } else if b > 1 {
          assert ops[1] == ops[1..][0] && ops[b] == ops[1..][b - 1];
        }
      }
    }
  }

  /** No two stops share a step, and they come in the order of their steps. */
  lemma ShutdownInOrder(registered: set<Subsystem>)
    ensures var ops := Shutdown(registered);
      forall a, b :: 0 <= a < b < |ops| ==> Phase(ops[a]) < Phase(ops[b])
  {
    assert IncreasingStops(StopOrder[4..]);
    assert IncreasingStops(StopOrder[3..]);
    assert IncreasingStops(StopOrder[2..]);
    assert IncreasingStops(StopOrder[1..]);
    StopsChain(StopOrder, registered);
    StrictChainPairs(Shutdown(registered));
  }

  /** Whatever failed at start-up, shut-down stops exactly what came up. */
  lemma ShutdownMatchesStartup(config: AppConfig, broken: set<Subsystem>)
    ensures var ops := Shutdown(Startup(config, broken).registered);
      && (WatchdogStop in ops <==> WatchdogSub !in broken)
      && (MtxStop in ops <==> MtxStart in Startup(config, broken).ops)
  {
    ShutdownStops(Startup(config, broken).registered);
  }
}
