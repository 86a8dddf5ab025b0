/** Port allocation, process table and health decisions (gateway/src/process_manager.rs). Spawning a
    child, waiting for it and probing it are inputs; operations do not overlap. */
module ProcessManager {
  import opened Common

  const U16_SPAN: nat := 0x1_0000

  type u16 = n: nat | n < U16_SPAN

  datatype Health = Healthy | Starting | Unhealthy

  datatype Process = Process(port: u16, health: Health, restartCount: nat, consecutiveFailures: nat)

  datatype Config = Config(maxProcesses: nat, maxRestarts: nat)

  /** How an attempt to start a child ends. The first four happen before the process is in the table. */
  datatype SpawnOutcome =
    | EmptyCommand | BinaryNotAllowed | InvalidDirectory | SpawnFailed
    | BecameHealthy | TimedOut | ExitedEarly
  {
    predicate BeforeInsertion() { EmptyCommand? || BinaryNotAllowed? || InvalidDirectory? || SpawnFailed? }
  }

  datatype Probe = Unreachable | Reachable(overMemoryLimit: bool)

  // ── Ports ────────────────────────────────────────────────────────

  /** `end.saturating_sub(start).saturating_add(1)` in 16 bits. */
  function PortCount(start: u16, end: u16): (count: u16)
    ensures count > 0 && start + count <= U16_SPAN
    ensures start <= end ==> start + count <= end + 1
  {
    var distance := if end >= start then end - start else 0;
    if distance + 1 < U16_SPAN then distance + 1 else U16_SPAN - 1
  }

  /** The least free slot. */
  function FirstFree(slots: seq<bool>): (r: Option<nat>)
    ensures r.Some? ==> r.value < |slots| && !slots[r.value] && forall j :: 0 <= j < r.value ==> slots[j]
    ensures r.None? ==> forall j :: 0 <= j < |slots| ==> slots[j]
  {
    if slots == [] then None
    else if !slots[0] then Some(0)
    else match FirstFree(slots[1..])
      case None => None
      case Some(i) =>
        assert forall j :: 0 < j < i + 1 ==> slots[j] == slots[1..][j - 1];
        Some(i + 1)
  }

  function Released(slots: seq<bool>, base: u16, port: u16): seq<bool> {
    if port >= base && port - base < |slots| then slots[port - base := false] else slots
  }

  class PortAllocator {
    const base: u16
    const inUse: array<bool>

    ghost predicate Valid() { base + inUse.Length <= U16_SPAN }

    constructor (start: u16, end: u16)
      ensures Valid() && fresh(inUse) && base == start && inUse.Length == PortCount(start, end)
      ensures forall i :: 0 <= i < inUse.Length ==> !inUse[i]
    {
      base := start;
      inUse := new bool[PortCount(start, end)](_ => false);
    }

    /** `base + i` never leaves 16 bits. */
    method Allocate() returns (port: Option<u16>)
      requires Valid()
      modifies inUse
      ensures match FirstFree(old(inUse[..]))
              case None => port == None && inUse[..] == old(inUse[..])
              case Some(i) => port == Some(base + i) && inUse[..] == old(inUse[..])[i := true]
    {
      for i := 0 to inUse.Length
        invariant inUse[..] == old(inUse[..])
        invariant forall j :: 0 <= j < i ==> inUse[j]
      {
        if !inUse[i] {
          assert FirstFree(old(inUse[..])) == Some(i) by {
            assert old(inUse[..])[i] == false;
            assert forall j :: 0 <= j < i ==> old(inUse[..])[j] == inUse[j];
          }
          inUse[i] := true;
          return Some(base + i);
        }
      }
      assert FirstFree(old(inUse[..])) == None by {
        assert forall j :: 0 <= j < inUse.Length ==> old(inUse[..])[j] == inUse[j];
      }
      return None;
    }

    method Release(port: u16)
      modifies inUse
      ensures inUse[..] == Released(old(inUse[..]), base, port)
    {
      if port >= base {
        var idx := port - base;
        if idx < inUse.Length {
          inUse[idx] := false;
        }
      }
    }
  }

  // ── Operations ───────────────────────────────────────────────────

  /** Slots, table, and the ports that no operation can free any more. */
  datatype State = State(base: u16, slots: seq<bool>, processes: map<string, Process>, leaked: set<nat>)

  function Stop(s: State, cid: string): (State, bool) {
    if cid in s.processes then
      (s.(processes := s.processes - {cid}, slots := Released(s.slots, s.base, s.processes[cid].port)), true)
    else (s, false)
  }

  function Insert(s: State, cid: string, p: Process): State {
    s.(processes := s.processes[cid := p],
       leaked := if cid in s.processes then s.leaked + {s.processes[cid].port} else s.leaked)
  }

  /** Starting a child on a port that was just claimed. */
  function Launch(s: State, cid: string, port: u16, outcome: SpawnOutcome): (State, Option<u16>) {
    if outcome.BeforeInsertion() then (s.(leaked := s.leaked + {port}), None)
    else if outcome == BecameHealthy then (Insert(s, cid, Process(port, Healthy, 0, 0)), Some(port))
    else (Stop(Insert(s, cid, Process(port, Starting, 0, 0)), cid).0, None)
  }

  function SpawnAt(s: State, cid: string, i: nat, outcome: SpawnOutcome): (State, Option<u16>)
    requires i < |s.slots| && s.base + i < U16_SPAN
  {
    Launch(s.(slots := s.slots[i := true]), cid, s.base + i, outcome)
  }

  function Spawn(s: State, cfg: Config, cid: string, outcome: SpawnOutcome): (State, Option<u16>) {
    if |s.processes| >= cfg.maxProcesses then (s, None)
    else match FirstFree(s.slots)
      case None => (s, None)
      case Some(i) => if s.base + i < U16_SPAN then SpawnAt(s, cid, i, outcome) else (s, None)
  }

  function WithRestartCount(s: State, cid: string, count: nat): State {
    if cid in s.processes then s.(processes := s.processes[cid := s.processes[cid].(restartCount := count)]) else s
  }

  function CountRestart(s: State, cid: string, count: nat, port: Option<u16>): State {
    if port.Some? then WithRestartCount(s, cid, count) else s
  }

  function Restart(s: State, cfg: Config, cid: string, outcome: SpawnOutcome): (State, Option<u16>) {
    if cid !in s.processes then (s, None)
    else
      var count := s.processes[cid].restartCount;
      var (t, port) := Spawn(Stop(s, cid).0, cfg, cid, outcome);
      (CountRestart(t, cid, count + 1, port), port)
  }

  function AfterFailure(p: Process): Process {
    var failures := p.consecutiveFailures + 1;
    p.(consecutiveFailures := failures, health := if failures >= 3 then Unhealthy else p.health)
  }

  /** The decision the health loop takes for one process after one probe. */
  function CheckHealth(s: State, cfg: Config, cid: string, probe: Probe, outcome: SpawnOutcome): State {
    if cid !in s.processes || s.processes[cid].health == Starting then s
    else
      var p := s.processes[cid];
      match probe
      case Reachable(true) => Stop(s, cid).0
      case Reachable(false) =>
        s.(processes := s.processes[cid := p.(health := Healthy, consecutiveFailures := 0)])
      case Unreachable =>
        var q := AfterFailure(p);
        var t := s.(processes := s.processes[cid := q]);
        if q.consecutiveFailures >= 5 && p.restartCount < cfg.maxRestarts then Restart(t, cfg, cid, outcome).0 else t
  }

  lemma SpawnOnSlot(s: State, cfg: Config, cid: string, i: nat, outcome: SpawnOutcome)
    requires |s.processes| < cfg.maxProcesses && FirstFree(s.slots) == Some(i) && s.base + i < U16_SPAN
    ensures Spawn(s, cfg, cid, outcome) == Launch(s.(slots := s.slots[i := true]), cid, s.base + i, outcome)
  {
  }

  class Manager {
    const allocator: PortAllocator
    const cfg: Config
    var processes: map<string, Process>
    ghost var leaked: set<nat>

    ghost function Abs(): State
      reads this, allocator.inUse
    {
      State(allocator.base, allocator.inUse[..], processes, leaked)
    }

    constructor (start: u16, end: u16, cfg: Config)
      ensures this.cfg == cfg && fresh(allocator) && fresh(allocator.inUse) && allocator.Valid()
      ensures Inv(Abs(), cfg) && Abs().processes == map[] && Abs().leaked == {} && Abs().base == start
    {
      allocator := new PortAllocator(start, end);
      this.cfg := cfg;
      processes := map[];
      leaked := {};
    }

    method SpawnProcess(cid: string, outcome: SpawnOutcome) returns (port: Option<u16>)
      requires allocator.Valid()
      modifies this, allocator.inUse
      ensures (Abs(), port) == Spawn(old(Abs()), cfg, cid, outcome)
    {
      if |processes| >= cfg.maxProcesses {
        return None;
      }
      port := allocator.Allocate();
      if port.None? {
        return None;
      }
      ghost var i := port.value - allocator.base;
      SpawnOnSlot(old(Abs()), cfg, cid, i, outcome);
      assert Abs() == old(Abs()).(slots := old(Abs()).slots[i := true]);
      port := LaunchOn(port.value, cid, outcome);
    }

    method LaunchOn(port: u16, cid: string, outcome: SpawnOutcome) returns (r: Option<u16>)
      modifies this, allocator.inUse
      ensures (Abs(), r) == Launch(old(Abs()), cid, port, outcome)
    {
      if outcome.BeforeInsertion() {
        leaked := leaked + {port};
        return None;
      }
      if cid in processes {
        leaked := leaked + {processes[cid].port};
      }
      processes := processes[cid := Process(port, Starting, 0, 0)];
      assert Abs() == Insert(old(Abs()), cid, Process(port, Starting, 0, 0));
      if outcome == TimedOut {
        var _ := StopProcess(cid);
        return None;
      }
      if outcome == ExitedEarly {
        allocator.Release(port);
        processes := processes - {cid};
        return None;
      }
      processes := processes[cid := processes[cid].(health := Healthy)];
      assert Abs() == Insert(old(Abs()), cid, Process(port, Healthy, 0, 0));
      return Some(port);
    }

    method StopProcess(cid: string) returns (ok: bool)
      modifies this`processes, allocator.inUse
      ensures (Abs(), ok) == Stop(old(Abs()), cid)
    {
      if cid !in processes {
        return false;
      }
      var port := processes[cid].port;
      processes := processes - {cid};
      allocator.Release(port);
      return true;
    }

    method RestartProcess(cid: string, outcome: SpawnOutcome) returns (port: Option<u16>)
      requires allocator.Valid()
      modifies this, allocator.inUse
      ensures (Abs(), port) == Restart(old(Abs()), cfg, cid, outcome)
    {
      if cid !in processes {
        return None;
      }
      var restartCount := processes[cid].restartCount;
      var _ := StopProcess(cid);
      port := SpawnProcess(cid, outcome);
      if port.Some? && cid in processes {
        processes := processes[cid := processes[cid].(restartCount := restartCount + 1)];
      }
    }

    method CheckProcess(cid: string, probe: Probe, outcome: SpawnOutcome)
      requires allocator.Valid()
      modifies this, allocator.inUse
      ensures Abs() == CheckHealth(old(Abs()), cfg, cid, probe, outcome)
    {
      if cid !in processes || processes[cid].health == Starting {
        return;
      }
      match probe
      case Reachable(overMemoryLimit) =>
        if overMemoryLimit {
          var _ := StopProcess(cid);
          return;
        }
        processes := processes[cid := processes[cid].(health := Healthy, consecutiveFailures := 0)];
      case Unreachable =>
        var p := processes[cid];
        p := p.(consecutiveFailures := p.consecutiveFailures + 1);
        if p.consecutiveFailures >= 3 {
          p := p.(health := Unhealthy);
        }
        processes := processes[cid := p];
        if p.consecutiveFailures >= 5 && p.restartCount < cfg.maxRestarts {
          var _ := RestartProcess(cid, outcome);
        }
    }

    /** Stops every process; only leaked ports stay allocated. */
    method ShutdownAll()
      requires allocator.Valid() && Inv(Abs(), cfg)
      modifies this`processes, allocator.inUse
      ensures Inv(Abs(), cfg) && processes == map[]
      ensures forall i :: 0 <= i < allocator.inUse.Length ==> (allocator.inUse[i] <==> allocator.base + i in leaked)
    {
      while processes != map[]
        invariant Inv(Abs(), cfg)
        decreases |processes|
      {
        var cid :| cid in processes;
        StopKeepsInv(Abs(), cfg, cid);
        RemovalSize(processes, cid);
        var _ := StopProcess(cid);
      }
      forall i | 0 <= i < allocator.inUse.Length
        ensures allocator.inUse[i] <==> allocator.base + i in leaked
      {
        assert Abs().slots[i] == allocator.inUse[i];
        assert InUse(Abs(), allocator.base + i) <==> allocator.inUse[i];
      }
    }
  }

  // ── Ports are conserved ──────────────────────────────────────────

  ghost predicate InUse(s: State, port: nat) {
    s.base <= port < s.base + |s.slots| && s.slots[port - s.base]
  }

  ghost predicate Live(s: State, port: nat) {
    exists cid :: cid in s.processes && s.processes[cid].port == port
  }

  /** A port is allocated exactly when it is live or leaked, and never both. */
  ghost predicate Exact(s: State) {
    && (forall port: nat :: InUse(s, port) <==> Live(s, port) || port in s.leaked)
    && (forall port: nat :: Live(s, port) ==> port !in s.leaked)
  }

  ghost predicate Distinct(s: State) {
    forall a, b | a in s.processes && b in s.processes && a != b :: s.processes[a].port != s.processes[b].port
  }

  /** Live processes have distinct ports, all in range and allocated; nothing else is allocated but leaked
      ports; the table respects its cap. */
  ghost predicate Inv(s: State, cfg: Config) {
    s.base + |s.slots| <= U16_SPAN && |s.processes| <= cfg.maxProcesses && Distinct(s) && Exact(s)
  }

  lemma ReleaseEffect(s: State, t: State, port: u16)
    requires t.slots == Released(s.slots, s.base, port) && t.base == s.base
    ensures forall x: nat :: InUse(t, x) <==> InUse(s, x) && x != port
  {
  }

  lemma StopLive(s: State, cid: string, x: nat)
    requires Distinct(s) && cid in s.processes
    ensures Live(Stop(s, cid).0, x) <==> Live(s, x) && x != s.processes[cid].port
  {
    var t := Stop(s, cid).0;
    if Live(s, x) && x != s.processes[cid].port {
      var c :| c in s.processes && s.processes[c].port == x;
      assert c in t.processes;
    }
  }

  lemma StopKeepsInv(s: State, cfg: Config, cid: string)
    requires Inv(s, cfg)
    ensures Inv(Stop(s, cid).0, cfg) && Stop(s, cid).0.leaked == s.leaked
  {
    if cid in s.processes {
      var t := Stop(s, cid).0;
      RemovalSize(s.processes, cid);
      ReleaseEffect(s, t, s.processes[cid].port);
      assert Live(s, s.processes[cid].port);
      forall x: nat ensures Live(t, x) <==> Live(s, x) && x != s.processes[cid].port { StopLive(s, cid, x); }
    }
  }

  lemma ClaimEffect(s: State, t: State, i: nat)
    requires i < |s.slots| && t.slots == s.slots[i := true] && t.base == s.base
    ensures forall x: nat :: InUse(t, x) <==> InUse(s, x) || x == s.base + i
  {
  }

  lemma InsertLive(s: State, cid: string, p: Process, x: nat)
    requires Distinct(s)
    ensures Live(Insert(s, cid, p), x) <==>
      x == p.port || (Live(s, x) && (cid in s.processes ==> x != s.processes[cid].port))
  {
    var t := Insert(s, cid, p);
    assert t.processes[cid].port == p.port;
    if Live(s, x) && (cid in s.processes ==> x != s.processes[cid].port) {
      var c :| c in s.processes && s.processes[c].port == x;
      assert c in t.processes && t.processes[c].port == x;
    }
  }

  /** Claiming a free port and entering it, for a new process or over an old one. */
  lemma InsertKeepsInv(s: State, cfg: Config, cid: string, i: nat, p: Process)
    requires Inv(s, cfg) && |s.processes| < cfg.maxProcesses
    requires i < |s.slots| && !s.slots[i] && p.port == s.base + i
    ensures Inv(Insert(s.(slots := s.slots[i := true]), cid, p), cfg)
  {
    var claimed := s.(slots := s.slots[i := true]);
    var t := Insert(claimed, cid, p);
    ClaimEffect(s, t, i);
    BindingSize(s.processes, cid, p);
    assert !InUse(s, p.port);
    forall x: nat
      ensures Live(t, x) <==> x == p.port || (Live(s, x) && (cid in s.processes ==> x != s.processes[cid].port))
    {
      InsertLive(claimed, cid, p, x);
      assert Live(claimed, x) <==> Live(s, x);
    }
    forall c | c in s.processes
      ensures s.processes[c].port != p.port
    {
      assert Live(s, s.processes[c].port);
    }
  }

  lemma LeakKeepsInv(s: State, cfg: Config, i: nat, t: State)
    requires Inv(s, cfg) && i < |s.slots| && !s.slots[i]
    requires t == s.(slots := s.slots[i := true], leaked := s.leaked + {s.base + i})
    ensures Inv(t, cfg)
  {
    ClaimEffect(s, t, i);
    assert !InUse(s, s.base + i);
    assert forall x: nat :: Live(t, x) <==> Live(s, x);
  }

  lemma SpawnAtKeepsInv(s: State, cfg: Config, cid: string, i: nat, outcome: SpawnOutcome)
    requires Inv(s, cfg) && |s.processes| < cfg.maxProcesses && i < |s.slots| && !s.slots[i]
    ensures Inv(SpawnAt(s, cid, i, outcome).0, cfg)
  {
    var t := SpawnAt(s, cid, i, outcome).0;
    var p := Process(s.base + i, if outcome == BecameHealthy then Healthy else Starting, 0, 0);
    LaunchCases(s, cid, i, outcome, p, t);
    if outcome.BeforeInsertion() {
      LeakKeepsInv(s, cfg, i, t);
    } else if outcome == BecameHealthy {
      InsertKeepsInv(s, cfg, cid, i, p);
    } else {
      FailedStartKeepsInv(s, cfg, cid, i, p, t);
    }
  }

  lemma LaunchCases(s: State, cid: string, i: nat, outcome: SpawnOutcome, p: Process, t: State)
    requires i < |s.slots| && s.base + i < U16_SPAN && t == SpawnAt(s, cid, i, outcome).0
    requires p == Process(s.base + i, if outcome == BecameHealthy then Healthy else Starting, 0, 0)
    ensures var claimed := s.(slots := s.slots[i := true]);
            t == if outcome.BeforeInsertion() then claimed.(leaked := s.leaked + {s.base + i})
                 else if outcome == BecameHealthy then Insert(claimed, cid, p)
                 else Stop(Insert(claimed, cid, p), cid).0
  {
  }

  /** A child that is entered and then stopped again. */
  lemma FailedStartKeepsInv(s: State, cfg: Config, cid: string, i: nat, p: Process, t: State)
    requires Inv(s, cfg) && |s.processes| < cfg.maxProcesses
    requires i < |s.slots| && !s.slots[i] && p.port == s.base + i
    requires t == Stop(Insert(s.(slots := s.slots[i := true]), cid, p), cid).0
    ensures Inv(t, cfg)
  {
    InsertKeepsInv(s, cfg, cid, i, p);
    StopKeepsInv(Insert(s.(slots := s.slots[i := true]), cid, p), cfg, cid);
  }

  lemma SpawnKeepsInv(s: State, cfg: Config, cid: string, outcome: SpawnOutcome)
    requires Inv(s, cfg)
    ensures Inv(Spawn(s, cfg, cid, outcome).0, cfg)
  {
    var free := FirstFree(s.slots);
    if |s.processes| < cfg.maxProcesses && free.Some? {
      SpawnAtKeepsInv(s, cfg, cid, free.value, outcome);
    }
  }

  /** Changing a process without touching its port. */
  lemma UpdateKeepsInv(s: State, cfg: Config, cid: string, p: Process)
    requires Inv(s, cfg) && cid in s.processes && p.port == s.processes[cid].port
    ensures Inv(s.(processes := s.processes[cid := p]), cfg)
  {
    var t := s.(processes := s.processes[cid := p]);
    BindingSize(s.processes, cid, p);
    assert forall c | c in s.processes :: c in t.processes && t.processes[c].port == s.processes[c].port;
    assert forall x: nat :: Live(t, x) <==> Live(s, x);
    assert forall x: nat :: InUse(t, x) <==> InUse(s, x);
  }

  lemma CountKeepsInv(s: State, cfg: Config, cid: string, count: nat, port: Option<u16>)
    requires Inv(s, cfg)
    ensures Inv(CountRestart(s, cid, count, port), cfg)
  {
    if cid in s.processes {
      UpdateKeepsInv(s, cfg, cid, s.processes[cid].(restartCount := count));
    }
  }

  lemma SpawnAndCountKeepInv(s: State, cfg: Config, cid: string, count: nat, outcome: SpawnOutcome, t: State,
                             port: Option<u16>)
    requires Inv(s, cfg) && (t, port) == Spawn(s, cfg, cid, outcome)
    ensures Inv(CountRestart(t, cid, count, port), cfg)
  {
    SpawnKeepsInv(s, cfg, cid, outcome);
    CountKeepsInv(t, cfg, cid, count, port);
  }

  lemma RestartIs(s: State, cfg: Config, cid: string, outcome: SpawnOutcome, stopped: State, t: State,
                  port: Option<u16>)
    requires cid in s.processes && stopped == Stop(s, cid).0 && (t, port) == Spawn(stopped, cfg, cid, outcome)
    ensures Restart(s, cfg, cid, outcome) == (CountRestart(t, cid, s.processes[cid].restartCount + 1, port), port)
  {
  }

  lemma RestartKeepsInv(s: State, cfg: Config, cid: string, outcome: SpawnOutcome)
    requires Inv(s, cfg)
    ensures Inv(Restart(s, cfg, cid, outcome).0, cfg)
  {
    if cid in s.processes {
      StopKeepsInv(s, cfg, cid);
      var stopped, count := Stop(s, cid).0, s.processes[cid].restartCount + 1;
      var (t, port) := Spawn(stopped, cfg, cid, outcome);
      RestartIs(s, cfg, cid, outcome, stopped, t, port);
      SpawnAndCountKeepInv(stopped, cfg, cid, count, outcome, t, port);
    }
  }

  // ── Runs ─────────────────────────────────────────────────────────

  datatype Op =
    | DoSpawn(cid: string, outcome: SpawnOutcome)
    | DoStop(cid: string)
    | DoRestart(cid: string, outcome: SpawnOutcome)
    | DoCheck(cid: string, probe: Probe, outcome: SpawnOutcome)

  function Perform(s: State, cfg: Config, op: Op): State {
    match op
    case DoSpawn(cid, outcome) => Spawn(s, cfg, cid, outcome).0
    case DoStop(cid) => Stop(s, cid).0
    case DoRestart(cid, outcome) => Restart(s, cfg, cid, outcome).0
    case DoCheck(cid, probe, outcome) => CheckHealth(s, cfg, cid, probe, outcome)
  }

  function Run(s: State, cfg: Config, ops: seq<Op>): State
    decreases |ops|
  {
    if ops == [] then s else Run(Perform(s, cfg, ops[0]), cfg, ops[1..])
  }

  lemma CheckKeepsInv(s: State, cfg: Config, cid: string, probe: Probe, outcome: SpawnOutcome)
    requires Inv(s, cfg)
    ensures Inv(CheckHealth(s, cfg, cid, probe, outcome), cfg)
  {
    if cid in s.processes && s.processes[cid].health != Starting {
      match probe
      case Reachable(over) =>
        StopKeepsInv(s, cfg, cid);
        UpdateKeepsInv(s, cfg, cid, s.processes[cid].(health := Healthy, consecutiveFailures := 0));
      case Unreachable =>
        UpdateKeepsInv(s, cfg, cid, AfterFailure(s.processes[cid]));
        RestartKeepsInv(s.(processes := s.processes[cid := AfterFailure(s.processes[cid])]), cfg, cid, outcome);
    }
  }

  lemma PerformKeepsInv(s: State, cfg: Config, op: Op)
    requires Inv(s, cfg)
    ensures Inv(Perform(s, cfg, op), cfg)
  {
    match op
    case DoSpawn(cid, outcome) => SpawnKeepsInv(s, cfg, cid, outcome);
    case DoStop(cid) => StopKeepsInv(s, cfg, cid);
    case DoRestart(cid, outcome) => RestartKeepsInv(s, cfg, cid, outcome);
    case DoCheck(cid, probe, outcome) => CheckKeepsInv(s, cfg, cid, probe, outcome);
  }

  /** Over any sequence of spawns, stops, restarts and health checks. */
  lemma {:induction false} PortsAreConserved(s: State, cfg: Config, ops: seq<Op>)
    requires Inv(s, cfg)
    ensures Inv(Run(s, cfg, ops), cfg)
    decreases |ops|
  {
    if ops != [] {
      PerformKeepsInv(s, cfg, ops[0]);
      PortsAreConserved(Perform(s, cfg, ops[0]), cfg, ops[1..]);
    }
  }

  // ── Restarts ─────────────────────────────────────────────────────

  ghost predicate RestartsWithin(s: State, cfg: Config) {
    forall cid | cid in s.processes :: s.processes[cid].restartCount <= cfg.maxRestarts
  }

  lemma SpawnKeepsRestarts(s: State, cfg: Config, cid: string, outcome: SpawnOutcome)
    requires RestartsWithin(s, cfg)
    ensures RestartsWithin(Spawn(s, cfg, cid, outcome).0, cfg)
  {
    var free := FirstFree(s.slots);
    if |s.processes| < cfg.maxProcesses && free.Some? && s.base + free.value < U16_SPAN {
      var t := SpawnAt(s, cid, free.value, outcome).0;
      assert forall c | c in t.processes && c != cid :: c in s.processes && t.processes[c] == s.processes[c];
      assert cid in t.processes ==> t.processes[cid].restartCount == 0 || t.processes == s.processes;
    }
  }

  lemma CountKeepsRestarts(s: State, cfg: Config, cid: string, count: nat, port: Option<u16>)
    requires RestartsWithin(s, cfg) && count <= cfg.maxRestarts
    ensures RestartsWithin(CountRestart(s, cid, count, port), cfg)
  {
  }

  lemma RestartKeepsRestarts(s: State, cfg: Config, cid: string, outcome: SpawnOutcome)
    requires RestartsWithin(s, cfg) && (cid in s.processes ==> s.processes[cid].restartCount < cfg.maxRestarts)
    ensures RestartsWithin(Restart(s, cfg, cid, outcome).0, cfg)
  {
    if cid in s.processes {
      var stopped := Stop(s, cid).0;
      assert RestartsWithin(stopped, cfg);
      SpawnKeepsRestarts(stopped, cfg, cid, outcome);
      var (t, port) := Spawn(stopped, cfg, cid, outcome);
      CountKeepsRestarts(t, cfg, cid, s.processes[cid].restartCount + 1, port);
    }
  }

  lemma PerformKeepsRestarts(s: State, cfg: Config, op: Op)
    requires RestartsWithin(s, cfg) && !op.DoRestart?
    ensures RestartsWithin(Perform(s, cfg, op), cfg)
  {
    match op
    case DoSpawn(cid, outcome) => SpawnKeepsRestarts(s, cfg, cid, outcome);
    case DoStop(_) =>
    case DoCheck(cid, probe, outcome) =>
      if cid in s.processes && s.processes[cid].restartCount < cfg.maxRestarts {
        RestartKeepsRestarts(s.(processes := s.processes[cid := AfterFailure(s.processes[cid])]), cfg, cid, outcome);
      }
  }

  /** The health loop alone never restarts a process more often than configured. */
  lemma {:induction false} AutomaticRestartsAreBounded(s: State, cfg: Config, ops: seq<Op>)
    requires RestartsWithin(s, cfg) && forall op | op in ops :: !op.DoRestart?
    ensures RestartsWithin(Run(s, cfg, ops), cfg)
    decreases |ops|
  {
    if ops != [] {
      assert ops[0] in ops;
      PerformKeepsRestarts(s, cfg, ops[0]);
      AutomaticRestartsAreBounded(Perform(s, cfg, ops[0]), cfg, ops[1..]);
    }
  }

  /** A restart by request is not limited: it can push the count past the configured maximum. */
  lemma RequestedRestartsAreNot(s: State, cfg: Config, cid: string)
    requires Inv(s, cfg) && cid in s.processes && s.processes[cid].restartCount == cfg.maxRestarts
    ensures var t := Restart(s, cfg, cid, BecameHealthy).0;
            cid in t.processes && t.processes[cid].restartCount == cfg.maxRestarts + 1
  {
    var stopped, port := Stop(s, cid).0, s.processes[cid].port;
    assert Live(s, port);
    assert InUse(s, port);
    RemovalSize(s.processes, cid);
    assert !stopped.slots[port - s.base];
  }

  /** A request to restart a process that has used up its restarts, granted. */
  predicate Exceeds(s: State, cfg: Config, op: Op) {
    op.DoRestart? && op.cid in s.processes && s.processes[op.cid].restartCount == cfg.maxRestarts
      && op.outcome == BecameHealthy
  }

  /** Nothing else takes a count past the maximum. */
  lemma RestartsExceededExactlyWhen(s: State, cfg: Config, op: Op)
    requires Inv(s, cfg) && RestartsWithin(s, cfg)
    ensures RestartsWithin(Perform(s, cfg, op), cfg) <==> !Exceeds(s, cfg, op)
  {
    if !op.DoRestart? {
      PerformKeepsRestarts(s, cfg, op);
    } else if op.cid in s.processes {
      if s.processes[op.cid].restartCount < cfg.maxRestarts {
        RestartKeepsRestarts(s, cfg, op.cid, op.outcome);
      } else if op.outcome == BecameHealthy {
        RequestedRestartsAreNot(s, cfg, op.cid);
      } else {
        FailedRestartKeepsRestarts(s, cfg, op.cid, op.outcome);
      }
    }
  }

  lemma FailedRestartKeepsRestarts(s: State, cfg: Config, cid: string, outcome: SpawnOutcome)
    requires RestartsWithin(s, cfg) && cid in s.processes && outcome != BecameHealthy
    ensures RestartsWithin(Restart(s, cfg, cid, outcome).0, cfg)
  {
    var stopped := Stop(s, cid).0;
    assert RestartsWithin(stopped, cfg);
    SpawnKeepsRestarts(stopped, cfg, cid, outcome);
    var (t, port) := Spawn(stopped, cfg, cid, outcome);
    assert port == None;
    RestartIs(s, cfg, cid, outcome, stopped, t, port);
  }

  ghost predicate WithinThroughout(s: State, cfg: Config, ops: seq<Op>)
    decreases |ops|
  {
    RestartsWithin(s, cfg) && (ops == [] || WithinThroughout(Perform(s, cfg, ops[0]), cfg, ops[1..]))
  }

  ghost predicate NoneExceeds(s: State, cfg: Config, ops: seq<Op>)
    decreases |ops|
  {
    ops == [] || (!Exceeds(s, cfg, ops[0]) && NoneExceeds(Perform(s, cfg, ops[0]), cfg, ops[1..]))
  }

  /** Over any run, all counts stay within the maximum exactly when no such request is granted. */
  lemma {:induction false} RestartsStayWithinExactlyWhen(s: State, cfg: Config, ops: seq<Op>)
    requires Inv(s, cfg) && RestartsWithin(s, cfg)
    ensures WithinThroughout(s, cfg, ops) <==> NoneExceeds(s, cfg, ops)
    decreases |ops|
  {
    if ops != [] {
      var t := Perform(s, cfg, ops[0]);
      RestartsExceededExactlyWhen(s, cfg, ops[0]);
      if RestartsWithin(t, cfg) {
        PerformKeepsInv(s, cfg, ops[0]);
        RestartsStayWithinExactlyWhen(t, cfg, ops[1..]);
      }
    }
  }

  // ── Leaks ────────────────────────────────────────────────────────

  /** A spawn leaks exactly when it claims a port and is then refused before the process is entered, or
      when it takes the place of a process still in the table. */
  lemma SpawnLeaksExactlyWhen(s: State, cfg: Config, cid: string, outcome: SpawnOutcome)
    requires Inv(s, cfg)
    ensures Spawn(s, cfg, cid, outcome).0.leaked != s.leaked <==>
      |s.processes| < cfg.maxProcesses && FirstFree(s.slots).Some? && (outcome.BeforeInsertion() || cid in s.processes)
    ensures s.leaked <= Spawn(s, cfg, cid, outcome).0.leaked
  {
    var free := FirstFree(s.slots);
    if free.Some? {
      assert !InUse(s, s.base + free.value);
    }
    if cid in s.processes {
      assert Live(s, s.processes[cid].port);
      assert s.processes[cid].port in s.leaked + {s.processes[cid].port};
    }
  }

  ghost predicate LeaksOnly(s: State, t: State) {
    s.leaked <= t.leaked && t.base == s.base && |t.slots| == |s.slots|
  }

  lemma SpawnLeaksOnly(s: State, cfg: Config, cid: string, outcome: SpawnOutcome)
    ensures LeaksOnly(s, Spawn(s, cfg, cid, outcome).0)
  {
  }

  lemma RestartLeaksOnly(s: State, cfg: Config, cid: string, outcome: SpawnOutcome)
    ensures LeaksOnly(s, Restart(s, cfg, cid, outcome).0)
  {
    SpawnLeaksOnly(Stop(s, cid).0, cfg, cid, outcome);
  }

  lemma PerformLeaksOnly(s: State, cfg: Config, op: Op)
    ensures LeaksOnly(s, Perform(s, cfg, op))
  {
    match op
    case DoSpawn(cid, outcome) => SpawnLeaksOnly(s, cfg, cid, outcome);
    case DoStop(_) =>
    case DoRestart(cid, outcome) => RestartLeaksOnly(s, cfg, cid, outcome);
    case DoCheck(cid, probe, outcome) =>
      if cid in s.processes {
        RestartLeaksOnly(s.(processes := s.processes[cid := AfterFailure(s.processes[cid])]), cfg, cid, outcome);
      }
  }

  /** Leaked ports stay leaked, and the range stays what it was. */
  lemma {:induction false} LeaksAreForever(s: State, cfg: Config, ops: seq<Op>)
    ensures s.leaked <= Run(s, cfg, ops).leaked
    ensures Run(s, cfg, ops).base == s.base && |Run(s, cfg, ops).slots| == |s.slots|
    decreases |ops|
  {
    if ops != [] {
      PerformLeaksOnly(s, cfg, ops[0]);
      LeaksAreForever(Perform(s, cfg, ops[0]), cfg, ops[1..]);
    }
  }

  predicate InRange(s: State, port: nat) { s.base <= port < s.base + |s.slots| }

  /** Once every port of the range has leaked, no spawn succeeds in any later state. */
  lemma {:induction false} ExhaustionIsFinal(s: State, cfg: Config, ops: seq<Op>, cid: string, outcome: SpawnOutcome)
    requires Inv(s, cfg) && forall port: nat | InRange(s, port) :: port in s.leaked
    ensures Spawn(Run(s, cfg, ops), cfg, cid, outcome).1 == None
  {
    PortsAreConserved(s, cfg, ops);
    LeaksAreForever(s, cfg, ops);
    NoneFree(Run(s, cfg, ops), cfg, cid, outcome);
  }

  lemma NoneFree(s: State, cfg: Config, cid: string, outcome: SpawnOutcome)
    requires Exact(s) && forall port: nat | InRange(s, port) :: port in s.leaked
    ensures Spawn(s, cfg, cid, outcome).1 == None
  {
    forall i | 0 <= i < |s.slots|
      ensures s.slots[i]
    {
      assert InRange(s, s.base + i);
      assert InUse(s, s.base + i);
    }
  }
}
