/** The watchdog: a loop that, while running, performs one tick of five
    health checks in a fixed order every 30 seconds. One tick is modelled;
    the thread and the sleep are not.

    The five checks share one try block, so the first check that raises ends
    the tick: the checks after it are skipped and the exception is swallowed.
    Which check raises is an input (`Env.fault`). What the check itself did
    before its collaborator call persists: in particular a date change is
    recorded even when the recorder's rollover then raises. A raising
    recorder pass is modelled as raising before it changes anything. The
    disk check makes two collaborator calls, and which of them raises is an
    input too (`Env.diskFaultAt`): when the low-disk cleanup raises, the
    age cleanup before it has already deleted its folders.

    The fault input over-approximates the code: it may name a check that
    calls no collaborator on this tick (a day check with no date change, a
    recorder check with nothing registered), where the code cannot raise.
    Every property below holds for those extra runs as well. */
module Watchdog {
  import opened Wrappers
  import opened Models
  import opened Processes
  import opened RecorderManager
  import opened MediaMtx
  import opened Storage

  /** The tunnel, seen only through `is_running` and `restart`; a restart's
      result (up or not) is an input. */
  datatype Tunnel = Tunnel(running: bool, restarts: nat)

  function TunnelRestart(t: Tunnel, up: bool): (r: Tunnel)
    ensures r.running == up && r.restarts == t.restarts + 1
  {
    Tunnel(up, t.restarts + 1)
  }

  /** The subsystems registered in the shared application state (a missing
      one is `None`), the configuration, and the recordings folder. */
  datatype System = System(
    recorder: Option<Recorder>,
    config: AppConfig,
    gateway: Option<Gateway>,
    tunnel: Option<Tunnel>,
    root: Root)

  /** Everything a tick reads from outside: today's date string, the clock,
      launch outcomes, the age cutoff date string, the free-space estimate and
      threshold (integer bytes), which check, if any, raises, and, when it is
      the disk check, in which of its two cleanups. */
  datatype Env = Env(
    today: string,
    now: int,
    launch: string -> Launch,
    mtxExe: bool,
    mtxLaunch: Launch,
    tunnelUp: bool,
    cutoff: string,
    free: int,
    minFree: int,
    fault: Option<Check>,
    diskFaultAt: DiskStep)

  datatype Check = DayCheck | RecorderCheck | MediaCheck | TunnelCheck | DiskCheck

  /** The two collaborator calls of the disk check, in order. */
  datatype DiskStep = AgeCleanup | LowDiskCleanup

  /** The order of the checks inside one tick. */
  const Order: seq<Check> := [DayCheck, RecorderCheck, MediaCheck, TunnelCheck, DiskCheck]

  function Position(c: Check): (i: nat)
    ensures i < |Order| && Order[i] == c
  {
    match c
    case DayCheck => 0
    case RecorderCheck => 1
    case MediaCheck => 2
    case TunnelCheck => 3
    case DiskCheck => 4
  }

  predicate Raises(c: Check, env: Env) {
    env.fault == Some(c)
  }

  /** The age cleanup of the disk check ran to its end: the disk check began
      and did not raise inside the age cleanup. */
  predicate AgeCleanupDone(ran: seq<Check>, env: Env) {
    DiskCheck in ran && !(Raises(DiskCheck, env) && env.diskFaultAt == AgeCleanup)
  }

  datatype WatchdogState = WatchdogState(running: bool, lastDay: string, loops: nat)

  /** Construction: not running, and the last seen day is today. */
  function NewWatchdog(today: string): (w: WatchdogState)
    ensures !w.running && w.lastDay == today && w.loops == 0
  {
    WatchdogState(false, today, 0)
  }

  /** `start`: a second start while running starts no second loop. */
  function Start(w: WatchdogState): (r: WatchdogState)
    ensures r.running && r.lastDay == w.lastDay
    ensures r.loops == if w.running then w.loops else w.loops + 1
  {
    if w.running then w else w.(running := true, loops := w.loops + 1)
  }

  lemma StartIdempotent(w: WatchdogState)
    ensures Start(Start(w)) == Start(w)
    ensures Start(w).loops <= w.loops + 1
  {
  }

  /** `stop`: the loop ends after its current tick. */
  function Stop(w: WatchdogState): (r: WatchdogState)
    ensures !r.running && r.lastDay == w.lastDay && r.loops == w.loops
  {
    w.(running := false)
  }

  // ---------------------------------------------------------------- the five checks

  /** `_check_day_rollover`, given the last seen day: on a new day the day is
      recorded first and then, when a recorder is registered and the call does
      not raise, the recorder's day rollover runs. */
  function CheckDayRollover(lastDay: string, sys: System, env: Env): (r: System)
    ensures r.gateway == sys.gateway && r.tunnel == sys.tunnel && r.root == sys.root
    ensures r.config.(cameras := sys.config.cameras) == sys.config
    ensures env.today == lastDay || sys.recorder.None? || Raises(DayCheck, env) ==> r == sys
    ensures env.today != lastDay && sys.recorder.Some? && !Raises(DayCheck, env) ==>
              var s := DayRollover(State(sys.recorder.value, sys.config), env.now, env.launch);
              r.recorder == Some(s.rec) && r.config == s.config
  {
    if env.today == lastDay || sys.recorder.None? || Raises(DayCheck, env) then sys
    else
      var s := DayRollover(State(sys.recorder.value, sys.config), env.now, env.launch);
      sys.(recorder := Some(s.rec), config := s.config)
  }

  /** `_check_recorder`: the restart pass, when a recorder is registered. */
  function CheckRecorder(sys: System, env: Env): (r: System)
    ensures r.gateway == sys.gateway && r.tunnel == sys.tunnel && r.root == sys.root
    ensures r.config.(cameras := sys.config.cameras) == sys.config
    ensures sys.recorder.None? || Raises(RecorderCheck, env) ==> r == sys
    ensures sys.recorder.Some? && !Raises(RecorderCheck, env) ==>
              var s := CheckAndRestart(State(sys.recorder.value, sys.config), env.now, env.launch);
              r.recorder == Some(s.rec) && r.config == s.config
  {
    if sys.recorder.None? || Raises(RecorderCheck, env) then sys
    else
      var s := CheckAndRestart(State(sys.recorder.value, sys.config), env.now, env.launch);
      sys.(recorder := Some(s.rec), config := s.config)
  }

  /** `_check_mediamtx`: start the gateway when it is registered and down. */
  function CheckMediaMtx(sys: System, env: Env): (r: System)
    ensures r.(gateway := sys.gateway) == sys
    ensures r.gateway != sys.gateway ==>
              && sys.gateway.Some? && !IsRunning(sys.gateway.value) && !Raises(MediaCheck, env)
              && r.gateway == Some(MediaMtx.Start(sys.gateway.value, sys.config.system, env.mtxExe, env.mtxLaunch))
    ensures sys.gateway.Some? && !IsRunning(sys.gateway.value) && !Raises(MediaCheck, env) && env.mtxExe ==>
              r.gateway.Some? && |r.gateway.value.log| > |sys.gateway.value.log|
  {
    if Raises(MediaCheck, env) then sys
    else match sys.gateway
      case Some(g) =>
        if IsRunning(g) then sys
        else sys.(gateway := Some(MediaMtx.Start(g, sys.config.system, env.mtxExe, env.mtxLaunch)))
      case None => sys
  }

  /** `_check_tunnel`: restart the tunnel when it is registered, the
      configured mode is not disabled, and it is down. */
  function CheckTunnel(sys: System, env: Env): (r: System)
    ensures r.(tunnel := sys.tunnel) == sys
    ensures r.tunnel != sys.tunnel <==>
              && sys.tunnel.Some? && sys.config.tunnel.mode != Disabled
              && !sys.tunnel.value.running && !Raises(TunnelCheck, env)
    ensures r.tunnel != sys.tunnel ==> r.tunnel == Some(TunnelRestart(sys.tunnel.value, env.tunnelUp))
  {
    if Raises(TunnelCheck, env) then sys
    else match sys.tunnel
      case Some(t) =>
        if sys.config.tunnel.mode != Disabled && !t.running then sys.(tunnel := Some(TunnelRestart(t, env.tunnelUp)))
        else sys
      case None => sys
  }

  /** `_check_disk`: age cleanup, then low-disk cleanup on what remains. A
      raise in the age cleanup leaves the recordings as they were; a raise in
      the low-disk cleanup (for instance when `psutil` is missing) keeps what
      the age cleanup deleted. */
  function CheckDisk(sys: System, env: Env): (r: System)
    ensures r.(root := sys.root) == sys
    ensures Raises(DiskCheck, env) && env.diskFaultAt == AgeCleanup ==> r.root == sys.root
    ensures Raises(DiskCheck, env) && env.diskFaultAt == LowDiskCleanup ==>
              r.root == CleanupOld(sys.root, env.cutoff)
    ensures !(Raises(DiskCheck, env) && env.diskFaultAt == AgeCleanup) && sys.root.Present? ==>
              && r.root.Present?
              && forall n :: n in r.root.entries ==> n in sys.root.entries && !RemovedByAge(n, env.cutoff)
    ensures !Raises(DiskCheck, env) ==>
              r.root == CleanupIfLow(CleanupOld(sys.root, env.cutoff), env.free, env.minFree).root
  {
    if Raises(DiskCheck, env) && env.diskFaultAt == AgeCleanup then sys
    else
      var aged := CleanupOld(sys.root, env.cutoff);
      if Raises(DiskCheck, env) then sys.(root := aged)
      else
        var low := CleanupIfLow(aged, env.free, env.minFree);
        sys.(root := low.root)
  }

  // ---------------------------------------------------------------- one tick

  /** What one tick leaves behind: the watchdog, the subsystems, the checks
      that began (in order), and whether a date change was seen. */
  datatype Tick = Tick(watchdog: WatchdogState, sys: System, ran: seq<Check>, rolledOver: bool)

  /** One pass of `_watch_loop`'s body; nothing happens once stopped. */
  function RunTick(w: WatchdogState, sys: System, env: Env): (r: Tick)
    ensures !w.running ==> r == Tick(w, sys, [], false)
    ensures w.running ==> r.watchdog == w.(lastDay := env.today)
    ensures w.running ==> (r.rolledOver <==> env.today != w.lastDay)
    ensures |r.ran| <= |Order| && r.ran == Order[..|r.ran|]
    ensures w.running && env.fault.None? ==> r.ran == Order
    ensures w.running && env.fault.Some? ==> r.ran == Order[..Position(env.fault.value) + 1]
  {
    if !w.running then Tick(w, sys, [], false)
    else
      var w1 := w.(lastDay := env.today);
      var rolled := env.today != w.lastDay;
      var s1 := CheckDayRollover(w.lastDay, sys, env);
      if Raises(DayCheck, env) then Tick(w1, s1, [DayCheck], rolled) else
      var s2 := CheckRecorder(s1, env);
      if Raises(RecorderCheck, env) then Tick(w1, s2, [DayCheck, RecorderCheck], rolled) else
      var s3 := CheckMediaMtx(s2, env);
      if Raises(MediaCheck, env) then Tick(w1, s3, [DayCheck, RecorderCheck, MediaCheck], rolled) else
      var s4 := CheckTunnel(s3, env);
      if Raises(TunnelCheck, env) then Tick(w1, s4, [DayCheck, RecorderCheck, MediaCheck, TunnelCheck], rolled) else
      var s5 := CheckDisk(s4, env);
      Tick(w1, s5, Order, rolled)
  }

  /** A check completed within a tick: it began and did not raise. */
  predicate Completed(c: Check, r: Tick, env: Env) {
    c in r.ran && !Raises(c, env)
  }

  /** Each collaborator is touched only by its own check, and only if that
      check completed: a check skipped after an earlier exception changes
      nothing. */
  lemma TickTouchesOnlyCompleted(w: WatchdogState, sys: System, env: Env)
    ensures var r := RunTick(w, sys, env);
      && (r.sys.gateway != sys.gateway ==>
            Completed(MediaCheck, r, env) && sys.gateway.Some? && !IsRunning(sys.gateway.value))
      && (r.sys.tunnel != sys.tunnel ==>
            Completed(TunnelCheck, r, env) && sys.tunnel.Some?
            && sys.config.tunnel.mode != Disabled && !sys.tunnel.value.running)
      && (r.sys.root != sys.root ==> AgeCleanupDone(r.ran, env))
      && (r.sys.recorder != sys.recorder || r.sys.config != sys.config ==>
            sys.recorder.Some? && (Completed(DayCheck, r, env) || Completed(RecorderCheck, r, env)))
  {
    var r := RunTick(w, sys, env);
    if w.running {
      var s1 := CheckDayRollover(w.lastDay, sys, env);
      var s2 := CheckRecorder(s1, env);
      var s3 := CheckMediaMtx(s2, env);
      var s4 := CheckTunnel(s3, env);
      assert s2.gateway == sys.gateway && s2.tunnel == sys.tunnel;
      assert s2.config.tunnel == sys.config.tunnel && s2.config.system == sys.config.system;
    }
  }

  /** The disk check runs the age cleanup before the low-disk cleanup, on the
      folder the earlier checks left untouched. */
  lemma DiskCleanupOrder(w: WatchdogState, sys: System, env: Env)
    requires w.running && env.fault.None?
    ensures RunTick(w, sys, env).sys.root
         == CleanupIfLow(CleanupOld(sys.root, env.cutoff), env.free, env.minFree).root
  {
    var s1 := CheckDayRollover(w.lastDay, sys, env);
    var s2 := CheckRecorder(s1, env);
    var s3 := CheckMediaMtx(s2, env);
    var s4 := CheckTunnel(s3, env);
    assert s4.root == sys.root;
    assert RunTick(w, sys, env).sys == CheckDisk(s4, env);
  }

  /** When the low-disk cleanup raises, the tick still leaves the age
      cleanup's deletions behind. */
  lemma LowDiskFaultKeepsAgeCleanup(w: WatchdogState, sys: System, env: Env)
    requires w.running && env.fault == Some(DiskCheck) && env.diskFaultAt == LowDiskCleanup
    ensures RunTick(w, sys, env).sys.root == CleanupOld(sys.root, env.cutoff)
  {
    var s1 := CheckDayRollover(w.lastDay, sys, env);
    var s2 := CheckRecorder(s1, env);
    var s3 := CheckMediaMtx(s2, env);
    var s4 := CheckTunnel(s3, env);
    assert s4.root == sys.root;
    assert RunTick(w, sys, env).sys == CheckDisk(s4, env);
  }

  /** A date change is acted on at most once: the tick that sees it records
      the new day (even if the rollover itself raises), so a second tick on
      the same day sees no change. */
  lemma RolloverAtMostOncePerDay(w: WatchdogState, sys: System, env: Env, env2: Env)
    requires w.running
    requires env2.today == env.today
    ensures var first := RunTick(w, sys, env);
      !RunTick(first.watchdog, first.sys, env2).rolledOver
  {
  }

  /** No rollover fires on the day the watchdog was constructed. */
  lemma NoRolloverOnConstructionDay(today: string, sys: System, env: Env)
    requires env.today == today
    ensures !RunTick(Start(NewWatchdog(today)), sys, env).rolledOver
  {
  }

  /** The recorder's day rollover is called exactly when a new day is seen,
      a recorder is registered and the call does not raise; then the restart
      pass runs on its result unless the recorder check raises. */
  lemma RecorderCalls(w: WatchdogState, sys: System, env: Env)
    requires w.running && sys.recorder.Some?
    requires env.fault.None?
    ensures var r := RunTick(w, sys, env);
      var s0 := State(sys.recorder.value, sys.config);
      var s1 := if env.today != w.lastDay then DayRollover(s0, env.now, env.launch) else s0;
      var s2 := CheckAndRestart(s1, env.now, env.launch);
      r.sys.recorder == Some(s2.rec) && r.sys.config == s2.config
  {
    var s1 := CheckDayRollover(w.lastDay, sys, env);
    var s2 := CheckRecorder(s1, env);
    var s3 := CheckMediaMtx(s2, env);
    var s4 := CheckTunnel(s3, env);
    var s5 := CheckDisk(s4, env);
    assert s5.recorder == s2.recorder && s5.config == s2.config;
  }

  /** An exception in one check skips every later check of that tick: with
      the recorder check raising, the gateway, tunnel and recordings are
      exactly as before, while the date change is still recorded. */
  lemma FaultSkipsLaterChecks(w: WatchdogState, sys: System, env: Env)
    requires w.running && env.fault == Some(RecorderCheck)
    ensures var r := RunTick(w, sys, env);
      && r.ran == [DayCheck, RecorderCheck]
      && r.sys.gateway == sys.gateway && r.sys.tunnel == sys.tunnel && r.sys.root == sys.root
      && r.watchdog.lastDay == env.today
  {
  }
}
