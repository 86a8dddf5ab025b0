/** What the health loop decides over a sequence of probes (gateway/src/process_manager.rs). */
module ProcessHealth {
  import opened Common
  import opened ProcessManager

  /** As a process is when it has just been started. */
  predicate Fresh(s: State, cid: string) {
    cid in s.processes && s.processes[cid].health == Healthy && s.processes[cid].consecutiveFailures == 0
  }

  /** The operation concerns another process, or is a probe that does not find the process over its memory
      limit, or an attempt to spawn it again that is refused before it changes the table. */
  ghost predicate Spares(s: State, cfg: Config, op: Op, cid: string) {
    op.cid == cid ==>
      || (op.DoCheck? && op.probe != Reachable(true))
      || (op.DoSpawn? && Spawn(s, cfg, cid, op.outcome).0.processes == s.processes)
  }

  ghost predicate Watched(s: State, cfg: Config, ops: seq<Op>, cid: string) {
    forall i :: 0 <= i < |ops| ==> Spares(Run(s, cfg, ops[..i]), cfg, ops[i], cid)
  }

  /** How many probes in a row, up to the last, did not reach the process. */
  function Streak(ops: seq<Op>, cid: string): nat {
    if ops == [] then 0
    else
      var op, before := ops[|ops| - 1], Streak(ops[..|ops| - 1], cid);
      if !op.DoCheck? || op.cid != cid then before else if op.probe.Unreachable? then before + 1 else 0
  }

  /** The restarts are used up, or there were never five such probes in a row. */
  ghost predicate LeftRunning(s: State, cfg: Config, cid: string, ops: seq<Op>) {
    cid in s.processes &&
    (s.processes[cid].restartCount >= cfg.maxRestarts || forall n :: 0 <= n <= |ops| ==> Streak(ops[..n], cid) < 5)
  }

  lemma {:induction false} RunAppends(s: State, cfg: Config, ops: seq<Op>, op: Op)
    ensures Run(s, cfg, ops + [op]) == Perform(Run(s, cfg, ops), cfg, op)
    decreases |ops|
  {
    if ops == [] {
      assert ops + [op] == [op] && [op][1..] == [];
    } else {
      assert (ops + [op])[1..] == ops[1..] + [op];
      RunAppends(Perform(s, cfg, ops[0]), cfg, ops[1..], op);
    }
  }

  /** From `s` to `t` the process, or its absence, is the same. */
  predicate Same(s: State, t: State, cid: string) {
    (cid in t.processes <==> cid in s.processes) && (cid in s.processes ==> t.processes[cid] == s.processes[cid])
  }

  lemma SpawnLeavesOthers(s: State, cfg: Config, other: string, outcome: SpawnOutcome, cid: string)
    requires other != cid
    ensures Same(s, Spawn(s, cfg, other, outcome).0, cid)
  {
  }

  lemma RestartLeavesOthers(s: State, cfg: Config, other: string, outcome: SpawnOutcome, cid: string)
    requires other != cid
    ensures Same(s, Restart(s, cfg, other, outcome).0, cid)
  {
    SpawnLeavesOthers(Stop(s, other).0, cfg, other, outcome, cid);
  }

  /** Operations concern one process. */
  lemma OthersAreLeft(s: State, cfg: Config, op: Op, cid: string)
    requires op.cid != cid
    ensures Same(s, Perform(s, cfg, op), cid)
  {
    match op
    case DoSpawn(other, outcome) => SpawnLeavesOthers(s, cfg, other, outcome, cid);
    case DoStop(_) =>
    case DoRestart(other, outcome) => RestartLeavesOthers(s, cfg, other, outcome, cid);
    case DoCheck(other, _, outcome) =>
      if other in s.processes {
        var failed := s.(processes := s.processes[other := AfterFailure(s.processes[other])]);
        RestartLeavesOthers(failed, cfg, other, outcome, cid);
      }
  }

  /** A process as `n` fruitless probes in a row leave it. */
  function Worn(p: Process, n: nat): Process {
    Process(p.port, if n >= 3 then Unhealthy else Healthy, p.restartCount, n)
  }

  lemma ProbeWears(s: State, cfg: Config, cid: string, p: Process, n: nat, probe: Probe, outcome: SpawnOutcome)
    requires cid in s.processes && s.processes[cid] == Worn(p, n) && probe != Reachable(true)
    requires probe.Unreachable? && n + 1 >= 5 ==> p.restartCount >= cfg.maxRestarts
    ensures var t := Perform(s, cfg, DoCheck(cid, probe, outcome));
            && t == s.(processes := s.processes[cid := Worn(p, if probe.Unreachable? then n + 1 else 0)])
  {
  }

  /** As long as it is left running, its failures on record are the probes in a row that did not reach it, and
      it counts as unhealthy from the third of them until it is reached. */
  lemma {:induction false} FailuresAreStreak(s: State, cfg: Config, cid: string, ops: seq<Op>)
    requires Fresh(s, cid) && Watched(s, cfg, ops, cid) && LeftRunning(s, cfg, cid, ops)
    ensures var u, p, n := Run(s, cfg, ops), s.processes[cid], Streak(ops, cid);
            && cid in u.processes && u.processes[cid].consecutiveFailures == n
            && (u.processes[cid].health == Unhealthy <==> n >= 3) && u.processes[cid].health != Starting
            && u.processes[cid].port == p.port && u.processes[cid].restartCount == p.restartCount
    ensures Run(s, cfg, ops).processes[cid] == Worn(s.processes[cid], Streak(ops, cid))
    decreases |ops|
  {
    if ops != [] {
      var k := |ops| - 1;
      var front, op := ops[..k], ops[k];
      assert ops == front + [op];
      PrefixIsLeftRunning(s, cfg, cid, front, op);
      FailuresAreStreak(s, cfg, cid, front);
      RunAppends(s, cfg, front, op);
      SparedWears(Run(s, cfg, front), cfg, cid, s.processes[cid], front, op);
    }
  }

  lemma PrefixIsLeftRunning(s: State, cfg: Config, cid: string, front: seq<Op>, op: Op)
    requires Watched(s, cfg, front + [op], cid) && LeftRunning(s, cfg, cid, front + [op])
    ensures Watched(s, cfg, front, cid) && LeftRunning(s, cfg, cid, front) && Spares(Run(s, cfg, front), cfg, op, cid)
    ensures s.processes[cid].restartCount >= cfg.maxRestarts || Streak(front + [op], cid) < 5
  {
    var ops := front + [op];
    assert forall n :: 0 <= n <= |front| ==> front[..n] == ops[..n];
    assert ops[..|front|] == front && ops[..|ops|] == ops;
    forall i | 0 <= i < |front|
      ensures Spares(Run(s, cfg, front[..i]), cfg, front[i], cid)
    {
      assert Spares(Run(s, cfg, ops[..i]), cfg, ops[i], cid);
    }
    assert Spares(Run(s, cfg, ops[..|front|]), cfg, ops[|front|], cid);
  }

  lemma StreakAppends(front: seq<Op>, op: Op, cid: string)
    ensures Streak(front + [op], cid) ==
              if !op.DoCheck? || op.cid != cid then Streak(front, cid)
              else if op.probe.Unreachable? then Streak(front, cid) + 1 else 0
  {
    assert (front + [op])[..|front|] == front;
  }

  lemma SparedWears(s: State, cfg: Config, cid: string, p: Process, front: seq<Op>, op: Op)
    requires cid in s.processes && s.processes[cid] == Worn(p, Streak(front, cid)) && Spares(s, cfg, op, cid)
    requires p.restartCount >= cfg.maxRestarts || Streak(front + [op], cid) < 5
    ensures var t := Perform(s, cfg, op);
            cid in t.processes && t.processes[cid] == Worn(p, Streak(front + [op], cid))
  {
    StreakAppends(front, op, cid);
    if op.cid != cid {
      OthersAreLeft(s, cfg, op, cid);
    } else if op.DoCheck? {
      ProbeWears(s, cfg, cid, p, Streak(front, cid), op.probe, op.outcome);
    }
  }

  // ── What one more probe does ─────────────────────────────────────

  /** A spawn succeeds exactly when the table has room, a port is free, and the child becomes healthy; the
      process is then fresh, on a port that was free. */
  lemma SpawnSucceedsExactlyWhen(s: State, cfg: Config, cid: string, outcome: SpawnOutcome)
    requires Inv(s, cfg)
    ensures var (t, port) := Spawn(s, cfg, cid, outcome);
            && (port.Some? <==>
                  && |s.processes| < cfg.maxProcesses && outcome == BecameHealthy
                  && exists i :: 0 <= i < |s.slots| && !s.slots[i])
            && (port.Some? ==>
                  && Fresh(t, cid) && t.processes[cid].restartCount == 0 && t.processes[cid].port == port.value
                  && !InUse(s, port.value) && InUse(t, port.value))
            && (port.None? ==> cid !in t.processes || t.processes == s.processes)
  {
  }

  lemma StoppingMakesRoom(s: State, cfg: Config, cid: string)
    requires Inv(s, cfg) && cid in s.processes
    ensures var t := Stop(s, cid).0;
            && Inv(t, cfg) && |t.processes| < cfg.maxProcesses
            && cid !in t.processes && !InUse(t, s.processes[cid].port)
            && exists i :: 0 <= i < |t.slots| && !t.slots[i]
  {
    var port := s.processes[cid].port;
    StopKeepsInv(s, cfg, cid);
    RemovalSize(s.processes, cid);
    assert Live(s, port);
    assert InUse(s, port);
    assert !Stop(s, cid).0.slots[port - s.base];
  }

  /** A restart brings the process back fresh, with one more restart counted, exactly when the child becomes
      healthy; otherwise it is gone. */
  lemma RestartRefreshes(s: State, cfg: Config, cid: string, outcome: SpawnOutcome)
    requires Inv(s, cfg) && cid in s.processes
    ensures var t := Restart(s, cfg, cid, outcome).0;
            if outcome == BecameHealthy
            then Fresh(t, cid) && t.processes[cid].restartCount == s.processes[cid].restartCount + 1
            else cid !in t.processes
  {
    var stopped := Stop(s, cid).0;
    StoppingMakesRoom(s, cfg, cid);
    SpawnSucceedsExactlyWhen(stopped, cfg, cid, outcome);
    var (t, port) := Spawn(stopped, cfg, cid, outcome);
    RestartIs(s, cfg, cid, outcome, stopped, t, port);
  }

  /** Some process was started anew under the name, or it is gone. */
  predicate Replaced(s: State, t: State, cid: string) {
    cid !in t.processes || (cid in s.processes && t.processes[cid].restartCount != s.processes[cid].restartCount)
  }

  /** After any such sequence, this is what the next probe does to the process. Over its memory limit it is removed
      and its port freed. If it is reached it is healthy, with no failure on record. If it is not, that is one more
      in a row; from the fifth on, while restarts are left, it is restarted, and so comes back fresh or not at all. */
  lemma ProbeDecides(s: State, cfg: Config, cid: string, ops: seq<Op>, probe: Probe, outcome: SpawnOutcome)
    requires Inv(s, cfg) && Fresh(s, cid) && Watched(s, cfg, ops, cid) && LeftRunning(s, cfg, cid, ops)
    ensures var u, p, n := Run(s, cfg, ops + [DoCheck(cid, probe, outcome)]), s.processes[cid], Streak(ops, cid);
            match probe
            case Reachable(true) => cid !in u.processes && !InUse(u, p.port)
            case Reachable(false) =>
              cid in u.processes && u.processes[cid] == Process(p.port, Healthy, p.restartCount, 0)
            case Unreachable =>
              && (Replaced(s, u, cid) <==> n + 1 >= 5 && p.restartCount < cfg.maxRestarts)
              && (cid in u.processes ==>
                    if Replaced(s, u, cid) then Fresh(u, cid) && u.processes[cid].restartCount == p.restartCount + 1
                    else u.processes[cid].consecutiveFailures == n + 1
                         && (u.processes[cid].health == Unhealthy <==> n + 1 >= 3))
              && (Replaced(s, u, cid) ==> (cid in u.processes <==> outcome == BecameHealthy))
  {
    var t := Run(s, cfg, ops);
    FailuresAreStreak(s, cfg, cid, ops);
    PortsAreConserved(s, cfg, ops);
    RunAppends(s, cfg, ops, DoCheck(cid, probe, outcome));
    match probe
    case Reachable(true) => StoppingMakesRoom(t, cfg, cid);
    case Reachable(false) => ProbeWears(t, cfg, cid, s.processes[cid], Streak(ops, cid), probe, outcome);
    case Unreachable =>
      if Streak(ops, cid) + 1 >= 5 && s.processes[cid].restartCount < cfg.maxRestarts {
        FruitlessProbeRestarts(t, cfg, cid, outcome);
      } else {
        ProbeWears(t, cfg, cid, s.processes[cid], Streak(ops, cid), probe, outcome);
      }
  }

  lemma FruitlessProbeRestarts(s: State, cfg: Config, cid: string, outcome: SpawnOutcome)
    requires Inv(s, cfg) && cid in s.processes && s.processes[cid].health != Starting
    requires s.processes[cid].consecutiveFailures >= 4 && s.processes[cid].restartCount < cfg.maxRestarts
    ensures var t := Perform(s, cfg, DoCheck(cid, Unreachable, outcome));
            if outcome == BecameHealthy
            then Fresh(t, cid) && t.processes[cid].restartCount == s.processes[cid].restartCount + 1
            else cid !in t.processes
  {
    var failed := s.(processes := s.processes[cid := AfterFailure(s.processes[cid])]);
    UpdateKeepsInv(s, cfg, cid, AfterFailure(s.processes[cid]));
    RestartRefreshes(failed, cfg, cid, outcome);
  }

  // ── Whole runs ───────────────────────────────────────────────────

  /** The process was fresh `k` operations into the run, and has only been watched and left running since. */
  ghost predicate FreshAt(s: State, cfg: Config, cid: string, ops: seq<Op>, k: nat) {
    k <= |ops| &&
    var t, since := Run(s, cfg, ops[..k]), ops[k..];
    Fresh(t, cid) && Watched(t, cfg, since, cid) && LeftRunning(t, cfg, cid, since)
  }

  /** Over any run of the manager, every process in the table was fresh at some point since which it has only
      been watched, and its failures and health are what the probes since then make them. */
  lemma {:induction false} EveryCountIsStreak(s: State, cfg: Config, ops: seq<Op>, cid: string)
    requires Inv(s, cfg) && s.processes == map[] && cid in Run(s, cfg, ops).processes
    ensures exists k: nat :: k <= |ops| && FreshAt(s, cfg, cid, ops, k)
                        && Run(s, cfg, ops).processes[cid].consecutiveFailures == Streak(ops[k..], cid)
                        && (Run(s, cfg, ops).processes[cid].health == Unhealthy <==> Streak(ops[k..], cid) >= 3)
  {
    var k := LastFresh(s, cfg, ops, cid);
    RunSplits(s, cfg, ops, k);
    FailuresAreStreak(Run(s, cfg, ops[..k]), cfg, cid, ops[k..]);
  }

  lemma {:induction false} RunSplits(s: State, cfg: Config, ops: seq<Op>, k: nat)
    requires k <= |ops|
    ensures Run(s, cfg, ops) == Run(Run(s, cfg, ops[..k]), cfg, ops[k..])
    decreases k
  {
    if k > 0 {
      assert ops[..k][0] == ops[0] && ops[..k][1..] == ops[1..][..k - 1] && ops[1..][k - 1..] == ops[k..];
      RunSplits(Perform(s, cfg, ops[0]), cfg, ops[1..], k - 1);
    } else {
      assert ops[..0] == [] && ops[0..] == ops;
    }
  }

  lemma {:induction false} LastFresh(s: State, cfg: Config, ops: seq<Op>, cid: string) returns (k: nat)
    requires Inv(s, cfg) && s.processes == map[] && cid in Run(s, cfg, ops).processes
    ensures FreshAt(s, cfg, cid, ops, k)
    decreases |ops|
  {
    var n := |ops| - 1;
    var front, op := ops[..n], ops[n];
    var t := Run(s, cfg, front);
    assert ops == front + [op];
    RunAppends(s, cfg, front, op);
    PortsAreConserved(s, cfg, front);
    k := |ops|;
    if Fresh(Run(s, cfg, ops), cid) {
      assert ops[..k] == ops && ops[k..] == [];
    } else {
      WasThere(t, cfg, op, cid);
      k := LastFresh(s, cfg, front, cid);
      StillLeftRunning(s, cfg, front, op, cid, k);
    }
  }

  /** What is neither fresh nor absent afterwards was there before. */
  lemma WasThere(s: State, cfg: Config, op: Op, cid: string)
    requires Inv(s, cfg) && cid in Perform(s, cfg, op).processes && !Fresh(Perform(s, cfg, op), cid)
    ensures cid in s.processes
  {
    if op.cid != cid {
      OthersAreLeft(s, cfg, op, cid);
    } else if op.DoSpawn? {
      SpawnSucceedsExactlyWhen(s, cfg, cid, op.outcome);
    }
  }

  /** And was spared, and not restarted. */
  lemma WasSpared(s: State, cfg: Config, op: Op, cid: string)
    requires Inv(s, cfg) && cid in Perform(s, cfg, op).processes && !Fresh(Perform(s, cfg, op), cid)
    requires cid in s.processes && s.processes[cid].health != Starting
    ensures Spares(s, cfg, op, cid)
    ensures op.cid == cid && op.DoCheck? && op.probe.Unreachable? ==>
              s.processes[cid].consecutiveFailures + 1 < 5 || s.processes[cid].restartCount >= cfg.maxRestarts
  {
    if op.cid == cid {
      match op
      case DoSpawn(_, outcome) => SpawnSucceedsExactlyWhen(s, cfg, cid, outcome);
      case DoStop(_) =>
      case DoRestart(_, outcome) => RestartRefreshes(s, cfg, cid, outcome);
      case DoCheck(_, probe, outcome) =>
        if probe.Unreachable? && s.processes[cid].consecutiveFailures >= 4
           && s.processes[cid].restartCount < cfg.maxRestarts {
          FruitlessProbeRestarts(s, cfg, cid, outcome);
        }
    }
  }

  lemma StillLeftRunning(s: State, cfg: Config, front: seq<Op>, op: Op, cid: string, k: nat)
    requires Inv(s, cfg) && FreshAt(s, cfg, cid, front, k)
    requires var t := Run(s, cfg, front + [op]); cid in t.processes && !Fresh(t, cid)
    ensures FreshAt(s, cfg, cid, front + [op], k)
  {
    RunSplits(s, cfg, front, k);
    RunAppends(s, cfg, front, op);
    PortsAreConserved(s, cfg, front);
    WornIsLeftRunning(Run(s, cfg, front[..k]), cfg, cid, front[k..], Run(s, cfg, front), op);
    assert (front + [op])[..k] == front[..k] && (front + [op])[k..] == front[k..] + [op];
  }

  lemma WornIsLeftRunning(s: State, cfg: Config, cid: string, since: seq<Op>, u: State, op: Op)
    requires Fresh(s, cid) && Watched(s, cfg, since, cid) && LeftRunning(s, cfg, cid, since)
    requires u == Run(s, cfg, since) && Inv(u, cfg)
    requires cid in Perform(u, cfg, op).processes && !Fresh(Perform(u, cfg, op), cid)
    ensures Watched(s, cfg, since + [op], cid) && LeftRunning(s, cfg, cid, since + [op])
  {
    FailuresAreStreak(s, cfg, cid, since);
    WasSpared(u, cfg, op, cid);
    StreakAppends(since, op, cid);
    StreakIsBounded(s, cfg, cid, since);
    MoreIsLeftRunning(s, cfg, cid, since, op);
  }

  lemma StreakIsBounded(s: State, cfg: Config, cid: string, since: seq<Op>)
    requires LeftRunning(s, cfg, cid, since)
    ensures s.processes[cid].restartCount >= cfg.maxRestarts || Streak(since, cid) < 5
  {
    assert since[..|since|] == since;
  }

  lemma MoreIsLeftRunning(s: State, cfg: Config, cid: string, since: seq<Op>, op: Op)
    requires Watched(s, cfg, since, cid) && LeftRunning(s, cfg, cid, since) && Spares(Run(s, cfg, since), cfg, op, cid)
    requires s.processes[cid].restartCount >= cfg.maxRestarts || Streak(since + [op], cid) < 5
    ensures Watched(s, cfg, since + [op], cid) && LeftRunning(s, cfg, cid, since + [op])
  {
    var more, n := since + [op], |since|;
    assert forall i :: 0 <= i <= n ==> more[..i] == since[..i];
    assert since[..n] == since && more[..n + 1] == more;
    forall i | 0 <= i < |more|
      ensures Spares(Run(s, cfg, more[..i]), cfg, more[i], cid)
    {
      if i < n {
        assert Spares(Run(s, cfg, since[..i]), cfg, since[i], cid);
      }
    }
  }
}
