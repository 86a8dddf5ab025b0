/** The circuit breaker (gateway/src/circuit_breaker.rs): first run one call at a time, then with the
    atomic steps of concurrent calls interleaved. Instants are nanoseconds. */
module CircuitBreakers {
  import opened Common

  datatype CircuitState = Closed | Open | HalfOpen

  datatype Config = Config(threshold: nat, resetTimeout: nat)

  /** The threshold is a 32-bit number. */
  predicate Representable(cfg: Config) { cfg.threshold < U32_SPAN }

  datatype Breaker = Breaker(state: CircuitState, count: nat, lastFailure: Option<nat>, openedAt: Option<nat>)

  const FRESH := Breaker(Closed, 0, None, None)

  /** The failure count is a 32-bit counter that wraps. */
  function Incremented(count: nat): nat { (count + 1) % U32_SPAN }

  predicate TimeoutElapsed(b: Breaker, cfg: Config, now: nat) {
    b.lastFailure.Some? && now >= b.lastFailure.value + cfg.resetTimeout
  }

  function Allow(b: Breaker, cfg: Config, now: nat): (Breaker, bool) {
    match b.state
    case Closed => (b, true)
    case Open => if TimeoutElapsed(b, cfg, now) then (b.(state := HalfOpen), true) else (b, false)
    case HalfOpen => (b, true)
  }

  function Succeed(b: Breaker): Breaker {
    match b.state
    case HalfOpen => b.(state := Closed, count := 0)
    case Closed => b.(count := 0)
    case Open => b
  }

  predicate Opens(seen: CircuitState, newCount: nat, cfg: Config) {
    (seen == Closed && newCount >= cfg.threshold) || seen == HalfOpen
  }

  function Fail(b: Breaker, cfg: Config, now: nat): Breaker {
    var c := Incremented(b.count);
    if Opens(b.state, c, cfg)
    then Breaker(Open, c, Some(now), Some(now))
    else b.(count := c, lastFailure := Some(now))
  }

  function ForceClosed(b: Breaker): Breaker { b.(state := Closed, count := 0) }

  class CircuitBreaker {
    const cfg: Config
    var state: CircuitState
    var failureCount: nat
    var lastFailureTime: Option<nat>
    var openedAt: Option<nat>

    function Abs(): Breaker reads this { Breaker(state, failureCount, lastFailureTime, openedAt) }

    constructor (cfg: Config)
      ensures this.cfg == cfg && Abs() == FRESH
    {
      this.cfg := cfg;
      state, failureCount, lastFailureTime, openedAt := Closed, 0, None, None;
    }

    method AllowRequest(now: nat) returns (allowed: bool)
      modifies this
      ensures (Abs(), allowed) == Allow(old(Abs()), cfg, now)
    {
      match state {
        case Closed => return true;
        case Open =>
          if lastFailureTime.Some? {
            if now >= lastFailureTime.value + cfg.resetTimeout {
              state := HalfOpen;
              return true;
            }
            return false;
          }
          return false;
        case HalfOpen => return true;
      }
    }

    method RecordSuccess()
      modifies this
      ensures Abs() == Succeed(old(Abs()))
    {
      match state {
        case HalfOpen =>
          state := Closed;
          failureCount := 0;
        case Closed => failureCount := 0;
        case Open =>
      }
    }

    method RecordFailure(now: nat)
      modifies this
      ensures Abs() == Fail(old(Abs()), cfg, now)
    {
      var seen := state;
      failureCount := (failureCount + 1) % U32_SPAN;
      var newCount := failureCount;
      lastFailureTime := Some(now);
      match seen {
        case Closed =>
          if newCount >= cfg.threshold {
            OpenCircuit(now);
          }
        case HalfOpen => OpenCircuit(now);
        case Open =>
      }
    }

    method OpenCircuit(now: nat)
      modifies this
      ensures Abs() == old(Abs()).(state := Open, openedAt := Some(now))
    {
      state := Open;
      openedAt := Some(now);
    }

    method ForceClose()
      modifies this
      ensures Abs() == ForceClosed(old(Abs()))
    {
      state := Closed;
      failureCount := 0;
    }
  }

  // ── One call at a time ───────────────────────────────────────────

  datatype Event =
    | Ask(at: nat)
    | Success
    | Failure(at: nat)
    | Force

  function Apply(b: Breaker, cfg: Config, e: Event): Breaker {
    match e
    case Ask(at) => Allow(b, cfg, at).0
    case Success => Succeed(b)
    case Failure(at) => Fail(b, cfg, at)
    case Force => ForceClosed(b)
  }

  function AllButLast(es: seq<Event>): (r: seq<Event>)
    requires es != []
    ensures |r| == |es| - 1 && es == r + [es[|es| - 1]]
  {
    es[..|es| - 1]
  }

  /** The breaker after a run from new. */
  function After(cfg: Config, es: seq<Event>): Breaker
    decreases |es|
  {
    if es == [] then FRESH else Apply(After(cfg, AllButLast(es)), cfg, es[|es| - 1])
  }

  /** Failures since the last success or forced close. */
  function Streak(es: seq<Event>): nat
    decreases |es|
  {
    if es == [] then 0
    else match es[|es| - 1]
      case Failure(_) => Streak(AllButLast(es)) + 1
      case Ask(_) => Streak(AllButLast(es))
      case _ => 0
  }

  function LatestFailure(es: seq<Event>): Option<nat>
    decreases |es|
  {
    if es == [] then None
    else if es[|es| - 1].Failure? then Some(es[|es| - 1].at)
    else LatestFailure(AllButLast(es))
  }

  /** The streak that opens the breaker; a threshold of zero acts like one. */
  function Limit(cfg: Config): nat { if cfg.threshold == 0 then 1 else cfg.threshold }

  /** What a breaker remembers of a run with the given streak and latest failure. */
  ghost predicate Remembers(b: Breaker, cfg: Config, streak: nat, latest: Option<nat>) {
    && (b.state == Closed ==> b.count == streak < Limit(cfg))
    && b.lastFailure == latest
    && (b.state != Closed ==> latest.Some?)
  }

  lemma EventKeepsMemory(b: Breaker, cfg: Config, streak: nat, latest: Option<nat>, e: Event)
    requires Representable(cfg) && Remembers(b, cfg, streak, latest)
    ensures Remembers(Apply(b, cfg, e), cfg,
                      match e case Failure(_) => streak + 1 case Ask(_) => streak case _ => 0,
                      if e.Failure? then Some(e.at) else latest)
  {
  }

  /** While closed, the count is the current streak, below the limit; the last failure is on record, and
      the breaker is open only when there was one. */
  lemma {:induction false} CountIsStreak(cfg: Config, es: seq<Event>)
    requires Representable(cfg)
    ensures var b := After(cfg, es);
            Remembers(b, cfg, Streak(es), LatestFailure(es))
    decreases |es|
  {
    if es != [] {
      var front := AllButLast(es);
      CountIsStreak(cfg, front);
      EventKeepsMemory(After(cfg, front), cfg, Streak(front), LatestFailure(front), es[|es| - 1]);
    }
  }

  /** A closed breaker opens exactly at the failure that completes the limit. */
  lemma OpensExactlyAtLimit(cfg: Config, es: seq<Event>, now: nat)
    requires Representable(cfg) && After(cfg, es).state == Closed
    ensures After(cfg, es + [Failure(now)]).state == Open <==> Streak(es) + 1 == Limit(cfg)
  {
    CountIsStreak(cfg, es);
    assert AllButLast(es + [Failure(now)]) == es;
  }

  ghost predicate ClosedThroughout(cfg: Config, es: seq<Event>)
    decreases |es|
  {
    After(cfg, es).state == Closed && (es == [] || ClosedThroughout(cfg, AllButLast(es)))
  }

  ghost predicate StreaksStayShort(cfg: Config, es: seq<Event>)
    decreases |es|
  {
    Streak(es) < Limit(cfg) && (es == [] || StreaksStayShort(cfg, AllButLast(es)))
  }

  /** The breaker never opens exactly when no streak of failures reaches the limit. */
  lemma {:induction false} StaysClosedExactlyWhen(cfg: Config, es: seq<Event>)
    requires Representable(cfg)
    ensures ClosedThroughout(cfg, es) <==> StreaksStayShort(cfg, es)
    decreases |es|
  {
    CountIsStreak(cfg, es);
    if es != [] {
      var front := AllButLast(es);
      StaysClosedExactlyWhen(cfg, front);
      CountIsStreak(cfg, front);
      if es[|es| - 1].Failure? && ClosedThroughout(cfg, front) {
        OpensExactlyAtLimit(cfg, front, es[|es| - 1].at);
      }
    }
  }

  /** In any run, a request is refused exactly when the breaker is open and the reset timeout since the
      latest failure, wherever in the run it was, has not passed. */
  lemma {:induction false} RefusedExactlyWhen(cfg: Config, es: seq<Event>, now: nat)
    requires Representable(cfg)
    ensures !Allow(After(cfg, es), cfg, now).1 <==>
              && After(cfg, es).state == Open
              && (LatestFailure(es).Some? ==> now < LatestFailure(es).value + cfg.resetTimeout)
    ensures After(cfg, es).state == Open ==> LatestFailure(es).Some?
  {
    CountIsStreak(cfg, es);
  }

  /** No request of `more` comes later than the timeout after the failure last seen before it. */
  ghost predicate AllPremature(cfg: Config, es: seq<Event>, more: seq<Event>)
    decreases |more|
  {
    more == [] ||
    (var front := AllButLast(more);
     && AllPremature(cfg, es, front)
     && match more[|more| - 1]
        case Ask(at) => LatestFailure(es + front).Some? && at < LatestFailure(es + front).value + cfg.resetTimeout
        case Force => false
        case _ => true)
  }

  lemma PrematureKeepsOpen(b: Breaker, cfg: Config, e: Event)
    requires b.state == Open && !e.Force? && (e.Ask? ==> !TimeoutElapsed(b, cfg, e.at))
    ensures Apply(b, cfg, e).state == Open
    ensures e.Ask? ==> !Allow(b, cfg, e.at).1
  {
  }

  /** Once open, the breaker stays open and refuses every premature request, however many successes and
      failures are reported meanwhile; each failure starts the timeout again. */
  lemma {:induction false} OpenRefusesUntilTimeout(cfg: Config, es: seq<Event>, more: seq<Event>)
    requires Representable(cfg) && After(cfg, es).state == Open && AllPremature(cfg, es, more)
    ensures After(cfg, es + more).state == Open
    ensures more != [] && more[|more| - 1].Ask? ==>
              !Allow(After(cfg, es + AllButLast(more)), cfg, more[|more| - 1].at).1
    decreases |more|
  {
    if more == [] {
      assert es + more == es;
    } else {
      var front, e := AllButLast(more), more[|more| - 1];
      OpenRefusesUntilTimeout(cfg, es, front);
      CountIsStreak(cfg, es + front);
      var b := After(cfg, es + front);
      assert b.state == Open && b.lastFailure == LatestFailure(es + front);
      assert AllButLast(es + more) == es + front && (es + more)[|es + more| - 1] == e;
      PrematureKeepsOpen(b, cfg, e);
    }
  }

  /** Half-open does not limit the number of trial requests: all of them pass until one reports back. */
  lemma {:induction false} HalfOpenAdmitsEveryRequest(cfg: Config, b: Breaker, asks: seq<nat>)
    requires b.state == HalfOpen
    ensures forall i :: 0 <= i < |asks| ==> Allow(AfterAsks(b, cfg, asks[..i]), cfg, asks[i]).1
    ensures AfterAsks(b, cfg, asks) == b
    decreases |asks|
  {
    if asks != [] {
      var front := asks[..|asks| - 1];
      HalfOpenAdmitsEveryRequest(cfg, b, front);
      forall i | 0 <= i < |asks|
        ensures Allow(AfterAsks(b, cfg, asks[..i]), cfg, asks[i]).1
      {
        if i < |front| {
          assert asks[..i] == front[..i] && asks[i] == front[i];
        }
      }
    }
  }

  function AfterAsks(b: Breaker, cfg: Config, asks: seq<nat>): Breaker
    decreases |asks|
  {
    if asks == [] then b
    else Allow(AfterAsks(b, cfg, asks[..|asks| - 1]), cfg, asks[|asks| - 1]).0
  }

  // ── Interleaved atomic steps ─────────────────────────────────────

  type Thread = nat

  /** What a thread has left to do; each is one access to shared memory or one reading of the clock. A time
      is read before the lock of its field is taken, so it may be older than the writing of it. */
  datatype Pc =
    | Idle
    | ReadsFailureTime
    | StoresHalfOpen
    | StoresClosed
    | StoresZero
    | Counts(seen: CircuitState)
    | TimesFailure(seen: CircuitState, newCount: nat)
    | StampsFailure(seen: CircuitState, newCount: nat, at: nat)
    | StoresOpen
    | TimesOpening
    | StampsOpening(at: nat)

  /** A call starts with its first access. */
  datatype Move = StartAllow | StartSuccess | StartFailure | StartForceClose | Continue

  datatype Action = Action(thread: Thread, move: Move, now: nat)

  datatype System = System(mem: Breaker, pcs: map<Thread, Pc>)

  const QUIET := System(FRESH, map[])

  function PcOf(s: System, t: Thread): Pc { if t in s.pcs then s.pcs[t] else Idle }

  function Started(mem: Breaker, move: Move): (Breaker, Pc) {
    match move
    case StartAllow => (mem, if mem.state == Open then ReadsFailureTime else Idle)
    case StartSuccess =>
      (mem, match mem.state case HalfOpen => StoresClosed case Closed => StoresZero case Open => Idle)
    case StartFailure => (mem, Counts(mem.state))
    case StartForceClose => (mem.(state := Closed), StoresZero)
    case Continue => (mem, Idle)
  }

  function Continued(mem: Breaker, cfg: Config, pc: Pc, now: nat): (Breaker, Pc) {
    match pc
    case Idle => (mem, Idle)
    case ReadsFailureTime => (mem, if TimeoutElapsed(mem, cfg, now) then StoresHalfOpen else Idle)
    case StoresHalfOpen => (mem.(state := HalfOpen), Idle)
    case StoresClosed => (mem.(state := Closed), StoresZero)
    case StoresZero => (mem.(count := 0), Idle)
    case Counts(seen) => (mem.(count := Incremented(mem.count)), TimesFailure(seen, Incremented(mem.count)))
    case TimesFailure(seen, c) => (mem, StampsFailure(seen, c, now))
    case StampsFailure(seen, c, at) =>
      (mem.(lastFailure := Some(at)), if Opens(seen, c, cfg) then StoresOpen else Idle)
    case StoresOpen => (mem.(state := Open), TimesOpening)
    case TimesOpening => (mem, StampsOpening(now))
    case StampsOpening(at) => (mem.(openedAt := Some(at)), Idle)
  }

  /** Some thread has read the failure time and will set the breaker half-open. It holds the read lock of the
      failure time until it has. */
  ghost predicate GuardHeld(s: System) { exists t :: t in s.pcs && s.pcs[t] == StoresHalfOpen }

  /** The action writes a failure time, for which it needs the write lock. */
  predicate NeedsWriteLock(s: System, a: Action) { a.move == Continue && PcOf(s, a.thread).StampsFailure? }

  /** One atomic step of one thread; a thread cannot start a call while it is in another. Who needs a lock
      that is held waits. */
  ghost function Step(s: System, cfg: Config, a: Action): System {
    var pc := PcOf(s, a.thread);
    if NeedsWriteLock(s, a) && GuardHeld(s) then s
    else if a.move == Continue then
      var (mem, next) := Continued(s.mem, cfg, pc, a.now);
      System(mem, s.pcs[a.thread := next])
    else if pc == Idle then
      var (mem, next) := Started(s.mem, a.move);
      System(mem, s.pcs[a.thread := next])
    else s
  }

  ghost function Run(s: System, cfg: Config, acts: seq<Action>): System
    decreases |acts|
  {
    if acts == [] then s else Run(Step(s, cfg, acts[0]), cfg, acts[1..])
  }

  /** The steps of one whole call, with nothing in between. */
  function Alone(t: Thread, move: Move, now: nat): seq<Action> {
    var c := Action(t, Continue, now);
    [Action(t, move, now), c, c, c, c, c, c]
  }

  lemma {:induction false} RunAppends(s: System, cfg: Config, acts: seq<Action>, a: Action)
    ensures Run(s, cfg, acts + [a]) == Step(Run(s, cfg, acts), cfg, a)
    decreases |acts|
  {
    if acts == [] {
      assert acts + [a] == [a] && [a][1..] == [];
    } else {
      assert (acts + [a])[1..] == acts[1..] + [a];
      RunAppends(Step(s, cfg, acts[0]), cfg, acts[1..], a);
    }
  }

  lemma {:induction false} RunFollows(cfg: Config, acts: seq<Action>, states: seq<System>)
    requires |states| == |acts| + 1 && forall i :: 0 <= i < |acts| ==> states[i + 1] == Step(states[i], cfg, acts[i])
    ensures Run(states[0], cfg, acts) == states[|acts|]
    decreases |acts|
  {
    if acts != [] {
      RunFollows(cfg, acts[1..], states[1..]);
    }
  }

  function Effect(mem: Breaker, cfg: Config, move: Move, now: nat): Breaker {
    match move
    case StartAllow => Allow(mem, cfg, now).0
    case StartSuccess => Succeed(mem)
    case StartFailure => Fail(mem, cfg, now)
    case StartForceClose => ForceClosed(mem)
    case Continue => mem
  }

  /** A call that is not interrupted has the effect of the sequential operation, except that a failure report
      waits at its stamp while another thread holds the guard. */
  lemma AloneIsSequential(s: System, cfg: Config, t: Thread, move: Move, now: nat)
    requires PcOf(s, t) == Idle
    ensures var r := Run(s, cfg, Alone(t, move, now));
            && (forall u | u != t :: PcOf(r, u) == PcOf(s, u))
            && if move == StartFailure && GuardHeld(s)
               then var c := Incremented(s.mem.count);
                    r.mem == s.mem.(count := c) && PcOf(r, t) == StampsFailure(s.mem.state, c, now)
               else r.mem == Effect(s.mem, cfg, move, now) && PcOf(r, t) == Idle
  {
    var c := Action(t, Continue, now);
    var s1 := Step(s, cfg, Action(t, move, now));
    var s2 := Step(s1, cfg, c);
    var s3 := Step(s2, cfg, c);
    var s4 := Step(s3, cfg, c);
    var s5 := Step(s4, cfg, c);
    var s6 := Step(s5, cfg, c);
    RunFollows(cfg, Alone(t, move, now), [s, s1, s2, s3, s4, s5, s6, Step(s6, cfg, c)]);
    if move == StartFailure {
      FailureAlone(s, cfg, t, now, s4);
    } else {
      OtherCallAlone(s, cfg, t, move, now, s3);
      AllIdleSteps(s3, cfg, c);
    }
  }

  lemma AllIdleSteps(s: System, cfg: Config, a: Action)
    requires a.move == Continue && a.thread in s.pcs && s.pcs[a.thread] == Idle
    ensures Step(s, cfg, a) == s
  {
    assert s.pcs[a.thread := Idle] == s.pcs;
  }

  lemma OtherCallAlone(s: System, cfg: Config, t: Thread, move: Move, now: nat, u: System)
    requires PcOf(s, t) == Idle && move != StartFailure
    requires var c := Action(t, Continue, now); u == Step(Step(Step(s, cfg, Action(t, move, now)), cfg, c), cfg, c)
    ensures u == System(Effect(s.mem, cfg, move, now), s.pcs[t := Idle])
  {
  }

  lemma FailureAlone(s: System, cfg: Config, t: Thread, now: nat, u: System)
    requires PcOf(s, t) == Idle
    requires var a := Action(t, Continue, now);
             u == Step(Step(Step(Step(s, cfg, Action(t, StartFailure, now)), cfg, a), cfg, a), cfg, a)
    ensures var a, c := Action(t, Continue, now), Incremented(s.mem.count);
            var last := Step(Step(Step(u, cfg, a), cfg, a), cfg, a);
            if GuardHeld(s)
            then last == System(s.mem.(count := c), s.pcs[t := StampsFailure(s.mem.state, c, now)])
            else last == System(Fail(s.mem, cfg, now), s.pcs[t := Idle])
  {
    var c, a := Incremented(s.mem.count), Action(t, Continue, now);
    var stamping := TimedReport(s, cfg, t, now);
    if GuardHeld(s) {
      assert u == stamping;
    } else if Opens(s.mem.state, c, cfg) {
      OpeningAlone(s, u, cfg, a);
    } else {
      assert u == System(Fail(s.mem, cfg, now), s.pcs[t := Idle]);
      AllIdleSteps(u, cfg, a);
    }
  }

  lemma OpeningAlone(s: System, s4: System, cfg: Config, a: Action)
    requires a.move == Continue && s4.pcs == s.pcs[a.thread := StoresOpen]
    ensures Step(Step(Step(s4, cfg, a), cfg, a), cfg, a)
         == System(s4.mem.(state := Open, openedAt := Some(a.now)), s.pcs[a.thread := Idle])
  {
    var s5 := Step(s4, cfg, a);
    var s6 := Step(s5, cfg, a);
    assert s5 == System(s4.mem.(state := Open), s.pcs[a.thread := TimesOpening]);
    assert s6 == System(s5.mem, s.pcs[a.thread := StampsOpening(a.now)]);
  }

  /** The first three steps of a failure report, up to its stamp. */
  lemma TimedReport(s: System, cfg: Config, t: Thread, now: nat) returns (u: System)
    requires PcOf(s, t) == Idle
    ensures var a := Action(t, Continue, now);
            u == Step(Step(Step(s, cfg, Action(t, StartFailure, now)), cfg, a), cfg, a)
    ensures var c := Incremented(s.mem.count);
            u == System(s.mem.(count := c), s.pcs[t := StampsFailure(s.mem.state, c, now)])
    ensures GuardHeld(u) <==> GuardHeld(s)
  {
    var c, a := Incremented(s.mem.count), Action(t, Continue, now);
    var s1 := Step(s, cfg, Action(t, StartFailure, now));
    var s2 := Step(s1, cfg, a);
    assert s1 == System(s.mem, s.pcs[t := Counts(s.mem.state)]);
    assert s2 == System(s.mem.(count := c), s.pcs[t := TimesFailure(s.mem.state, c)]);
    u := Step(s2, cfg, a);
    GuardOfOthers(s, u, t);
  }

  lemma GuardOfOthers(s: System, u: System, t: Thread)
    requires PcOf(s, t) != StoresHalfOpen && PcOf(u, t) != StoresHalfOpen
    requires t in u.pcs && u.pcs == s.pcs[t := u.pcs[t]]
    ensures GuardHeld(u) <==> GuardHeld(s)
  {
    if GuardHeld(s) {
      var v :| v in s.pcs && s.pcs[v] == StoresHalfOpen;
      assert v in u.pcs && u.pcs[v] == StoresHalfOpen;
    }
  }

  predicate HasSeenFailure(pc: Pc) {
    pc in {StoresOpen, TimesOpening, StoresHalfOpen, ReadsFailureTime} || pc.StampsOpening?
  }

  /** Whoever opens the breaker has stamped a failure before. */
  ghost predicate Sound(s: System) {
    && (s.mem.state != Closed ==> s.mem.lastFailure.Some?)
    && forall t | t in s.pcs :: HasSeenFailure(s.pcs[t]) ==> s.mem.lastFailure.Some?
  }

  lemma {:induction false} RunStaysSound(s: System, cfg: Config, acts: seq<Action>)
    requires Sound(s)
    ensures Sound(Run(s, cfg, acts))
    decreases |acts|
  {
    if acts != [] {
      RunStaysSound(Step(s, cfg, acts[0]), cfg, acts[1..]);
    }
  }

  /** Whatever the interleaving, an open breaker has a failure time on record, and so any idle thread that
      asks once the timeout has passed is let through and leaves the breaker half-open. */
  lemma OpenCanAlwaysBeLeft(cfg: Config, acts: seq<Action>, t: Thread, now: nat)
    requires var s := Run(QUIET, cfg, acts);
             && s.mem.state == Open && PcOf(s, t) == Idle
             && (s.mem.lastFailure.Some? ==> now >= s.mem.lastFailure.value + cfg.resetTimeout)
    ensures var s := Run(QUIET, cfg, acts);
            && s.mem.lastFailure.Some?
            && Run(s, cfg, Alone(t, StartAllow, now)).mem == s.mem.(state := HalfOpen)
            && Allow(s.mem, cfg, now).1
  {
    RunStaysSound(QUIET, cfg, acts);
    AloneIsSequential(Run(QUIET, cfg, acts), cfg, t, StartAllow, now);
  }

  // ── Concurrent failure reports ───────────────────────────────────

  predicate ReportsFailures(acts: seq<Action>) {
    forall i :: 0 <= i < |acts| ==> acts[i].move in {StartFailure, Continue}
  }

  /** Has seen the breaker's state but has not yet acted on it. */
  predicate Tallying(pc: Pc) { pc.Counts? || pc.TimesFailure? || pc.StampsFailure? }

  predicate Reporting(pc: Pc) { pc in {Idle, StoresOpen, TimesOpening} || pc.StampsOpening? || Tallying(pc) }

  predicate Counting(s: System, a: Action) { a.move == Continue && PcOf(s, a.thread).Counts? }

  /** How many failures a run counts. */
  ghost function Counted(s: System, cfg: Config, acts: seq<Action>): nat
    decreases |acts|
  {
    if acts == [] then 0
    else (if Counting(s, acts[0]) then 1 else 0) + Counted(Step(s, cfg, acts[0]), cfg, acts[1..])
  }

  /** Bound to open the breaker. */
  predicate WillOpen(cfg: Config, pc: Pc) {
    pc == StoresOpen || ((pc.TimesFailure? || pc.StampsFailure?) && Opens(pc.seen, pc.newCount, cfg))
  }

  /** Only failures are in progress; whoever saw the breaker open was right and it still is; once the limit
      is counted the breaker is open or a thread is about to open it, and not before. */
  ghost predicate FailuresInProgress(s: System, cfg: Config) {
    && s.mem.state != HalfOpen && s.mem.count < U32_SPAN
    && (forall t | t in s.pcs :: Reporting(s.pcs[t]))
    && (forall t | t in s.pcs && Tallying(s.pcs[t]) ::
          s.pcs[t].seen != HalfOpen && (s.pcs[t].seen == Open ==> s.mem.state == Open))
    && (forall t | t in s.pcs && WillOpen(cfg, s.pcs[t]) :: s.mem.count >= Limit(cfg))
    && (s.mem.state == Open ==> s.mem.count >= Limit(cfg))
    && (s.mem.count >= Limit(cfg) ==> s.mem.state == Open || exists t :: t in s.pcs && WillOpen(cfg, s.pcs[t]))
  }

  lemma ReportKeepsProgress(s: System, cfg: Config, a: Action)
    requires FailuresInProgress(s, cfg) && a.move in {StartFailure, Continue}
    requires Counting(s, a) ==> s.mem.count + 1 < U32_SPAN
    ensures FailuresInProgress(Step(s, cfg, a), cfg)
    ensures Step(s, cfg, a).mem.count == s.mem.count + if Counting(s, a) then 1 else 0
  {
    var u := Step(s, cfg, a);
    if s.mem.count >= Limit(cfg) && s.mem.state != Open {
      var t :| t in s.pcs && WillOpen(cfg, s.pcs[t]);
      assert a.thread != t ==> t in u.pcs && WillOpen(cfg, u.pcs[t]);
    }
    assert a.thread in u.pcs || u == s;
  }

  lemma {:induction false} ReportsKeepProgress(s: System, cfg: Config, acts: seq<Action>)
    requires FailuresInProgress(s, cfg) && ReportsFailures(acts) && s.mem.count + Counted(s, cfg, acts) < U32_SPAN
    ensures var u := Run(s, cfg, acts);
            FailuresInProgress(u, cfg) && u.mem.count == s.mem.count + Counted(s, cfg, acts)
    decreases |acts|
  {
    if acts != [] {
      ReportKeepsProgress(s, cfg, acts[0]);
      ReportsKeepProgress(Step(s, cfg, acts[0]), cfg, acts[1..]);
    }
  }

  /** However concurrent failure reports interleave, none is lost: once all have finished, the breaker is
      open exactly when the limit was reached. */
  lemma ConcurrentFailuresOpenExactlyAtLimit(cfg: Config, acts: seq<Action>)
    requires ReportsFailures(acts) && Counted(QUIET, cfg, acts) < U32_SPAN
    requires forall t | t in Run(QUIET, cfg, acts).pcs :: Run(QUIET, cfg, acts).pcs[t] == Idle
    ensures var s := Run(QUIET, cfg, acts);
            && s.mem.count == Counted(QUIET, cfg, acts)
            && (s.mem.state == Open <==> Counted(QUIET, cfg, acts) >= Limit(cfg))
            && (s.mem.state == Closed <==> Counted(QUIET, cfg, acts) < Limit(cfg))
  {
    ReportsKeepProgress(QUIET, cfg, acts);
  }

  // ── When trials come ─────────────────────────────────────────────

  /** The clock never goes back from one action to the next. */
  ghost predicate TimedFrom(clock: nat, acts: seq<Action>) {
    && (forall i :: 0 <= i < |acts| ==> clock <= acts[i].now)
    && forall i, j :: 0 <= i < j < |acts| ==> acts[i].now <= acts[j].now
  }

  function End(clock: nat, acts: seq<Action>): nat { if acts == [] then clock else acts[|acts| - 1].now }

  /** Every thread about to make the breaker half-open may do so by the clock. */
  ghost predicate ProbesDue(s: System, cfg: Config, clock: nat) {
    forall t | t in s.pcs && s.pcs[t] == StoresHalfOpen :: TimeoutElapsed(s.mem, cfg, clock)
  }

  /** The only steps that could change this are the stamps, and they wait. */
  lemma StepKeepsProbesDue(s: System, cfg: Config, clock: nat, a: Action)
    requires ProbesDue(s, cfg, clock) && clock <= a.now
    ensures ProbesDue(Step(s, cfg, a), cfg, a.now)
  {
    var u := Step(s, cfg, a);
    forall t | t in u.pcs && u.pcs[t] == StoresHalfOpen
      ensures TimeoutElapsed(u.mem, cfg, a.now)
    {
      assert t != a.thread ==> t in s.pcs && s.pcs[t] == StoresHalfOpen;
    }
  }

  lemma {:induction false} RunKeepsProbesDue(s: System, cfg: Config, clock: nat, acts: seq<Action>)
    requires ProbesDue(s, cfg, clock) && TimedFrom(clock, acts)
    ensures ProbesDue(Run(s, cfg, acts), cfg, End(clock, acts))
    decreases |acts|
  {
    if acts != [] {
      StepKeepsProbesDue(s, cfg, clock, acts[0]);
      RunKeepsProbesDue(Step(s, cfg, acts[0]), cfg, acts[0].now, acts[1..]);
    }
  }

  predicate EntersHalfOpen(s: System, a: Action) { a.move == Continue && PcOf(s, a.thread) == StoresHalfOpen }

  /** Whatever the interleaving, no thread makes the breaker half-open before the timeout since the failure on
      record: the guard keeps other failures off the record meanwhile. */
  lemma TrialsAreDue(cfg: Config, acts: seq<Action>, i: nat)
    requires TimedFrom(0, acts) && i < |acts| && EntersHalfOpen(Run(QUIET, cfg, acts[..i]), acts[i])
    ensures TimeoutElapsed(Run(QUIET, cfg, acts[..i]).mem, cfg, acts[i].now)
  {
    RunKeepsProbesDue(QUIET, cfg, 0, acts[..i]);
    assert i > 0 ==> acts[..i][i - 1] == acts[i - 1];
  }

  // ── When a trial is still due once under way ─────────────────────

  ghost predicate AllIdle(s: System) { forall t | t in s.pcs :: s.pcs[t] == Idle }

  predicate Reopens(cfg: Config, pc: Pc) { pc == Counts(HalfOpen) || WillOpen(cfg, pc) }

  /** Some thread other than `but` is bound to open the breaker. */
  ghost predicate OthersReopen(s: System, cfg: Config, but: Option<Thread>) {
    exists t :: t in s.pcs && Some(t) != but && Reopens(cfg, s.pcs[t])
  }

  /** A half-open breaker has not failed within the timeout, or is about to be opened again. */
  ghost predicate TrialSound(s: System, cfg: Config, clock: nat) {
    s.mem.state == HalfOpen && !TimeoutElapsed(s.mem, cfg, clock) ==> OthersReopen(s, cfg, None)
  }

  /** A failure younger than the timeout goes on record in a half-open breaker, but whoever reports it will not
      open the breaker, and nobody else will. Such a report began before the trial did. */
  ghost predicate LateStamp(s: System, cfg: Config, a: Action) {
    && NeedsWriteLock(s, a) && !GuardHeld(s) && s.mem.state == HalfOpen
    && !WillOpen(cfg, PcOf(s, a.thread)) && a.now < PcOf(s, a.thread).at + cfg.resetTimeout
    && !OthersReopen(s, cfg, Some(a.thread))
  }

  lemma ReopenersRemain(s: System, cfg: Config, a: Action)
    requires OthersReopen(s, cfg, Some(a.thread))
    ensures OthersReopen(Step(s, cfg, a), cfg, None)
  {
    var u := Step(s, cfg, a);
    var t :| t in s.pcs && Some(t) != Some(a.thread) && Reopens(cfg, s.pcs[t]);
    assert t in u.pcs && u.pcs[t] == s.pcs[t];
  }

  lemma TrialStaysSoundExactlyWhen(s: System, cfg: Config, clock: nat, a: Action)
    requires ProbesDue(s, cfg, clock) && TrialSound(s, cfg, clock) && clock <= a.now
    ensures TrialSound(Step(s, cfg, a), cfg, a.now) <==> !LateStamp(s, cfg, a)
  {
    if OthersReopen(s, cfg, Some(a.thread)) {
      ReopenersRemain(s, cfg, a);
    } else if LateStamp(s, cfg, a) {
      LateStampUnsettles(s, cfg, a);
    } else {
      OtherStepsKeepTrials(s, cfg, clock, a);
    }
  }

  lemma LateStampUnsettles(s: System, cfg: Config, a: Action)
    requires LateStamp(s, cfg, a)
    ensures !TrialSound(Step(s, cfg, a), cfg, a.now)
  {
    var u := Step(s, cfg, a);
    assert u.pcs[a.thread] == Idle;
    forall t | t in u.pcs
      ensures !Reopens(cfg, u.pcs[t])
    {
      assert t != a.thread ==> t in s.pcs && Some(t) != Some(a.thread);
    }
  }

  lemma OtherStepsKeepTrials(s: System, cfg: Config, clock: nat, a: Action)
    requires ProbesDue(s, cfg, clock) && TrialSound(s, cfg, clock) && clock <= a.now
    requires !OthersReopen(s, cfg, Some(a.thread)) && !LateStamp(s, cfg, a)
    ensures TrialSound(Step(s, cfg, a), cfg, a.now)
  {
    var u, pc := Step(s, cfg, a), PcOf(s, a.thread);
    assert a.thread in u.pcs || u == s;
    if OthersReopen(s, cfg, None) {
      var t :| t in s.pcs && Reopens(cfg, s.pcs[t]);
      assert t == a.thread;
    }
    assert EntersHalfOpen(s, a) ==> a.thread in s.pcs;
  }

  ghost predicate NoLateStamp(s: System, cfg: Config, acts: seq<Action>)
    decreases |acts|
  {
    acts == [] || (!LateStamp(s, cfg, acts[0]) && NoLateStamp(Step(s, cfg, acts[0]), cfg, acts[1..]))
  }

  ghost predicate TrialSoundThroughout(s: System, cfg: Config, clock: nat, acts: seq<Action>)
    decreases |acts|
  {
    && TrialSound(s, cfg, clock)
    && (acts == [] || TrialSoundThroughout(Step(s, cfg, acts[0]), cfg, acts[0].now, acts[1..]))
  }

  lemma {:induction false} TrialSoundThroughoutExactlyWhen(s: System, cfg: Config, clock: nat, acts: seq<Action>)
    requires ProbesDue(s, cfg, clock) && TrialSound(s, cfg, clock) && TimedFrom(clock, acts)
    ensures TrialSoundThroughout(s, cfg, clock, acts) <==> NoLateStamp(s, cfg, acts)
    ensures NoLateStamp(s, cfg, acts) ==> TrialSound(Run(s, cfg, acts), cfg, End(clock, acts))
    decreases |acts|
  {
    if acts != [] {
      var u := Step(s, cfg, acts[0]);
      TrialStaysSoundExactlyWhen(s, cfg, clock, acts[0]);
      StepKeepsProbesDue(s, cfg, clock, acts[0]);
      if !LateStamp(s, cfg, acts[0]) {
        TrialSoundThroughoutExactlyWhen(u, cfg, acts[0].now, acts[1..]);
      }
    }
  }

  /** At rest, a half-open breaker has not failed within the timeout exactly when its trial is sound. So it is
      after every interleaving without a late stamp. */
  lemma RestingTrialIsDueExactlyWhen(cfg: Config, acts: seq<Action>)
    requires TimedFrom(0, acts) && AllIdle(Run(QUIET, cfg, acts))
    ensures var s, now := Run(QUIET, cfg, acts), End(0, acts);
            && ((s.mem.state == HalfOpen ==> TimeoutElapsed(s.mem, cfg, now)) <==> TrialSound(s, cfg, now))
            && (NoLateStamp(QUIET, cfg, acts) ==> TrialSound(s, cfg, now))
  {
    TrialSoundThroughoutExactlyWhen(QUIET, cfg, 0, acts);
  }

  // ── When the record is the latest failure ────────────────────────

  /** The action puts a failure on record. */
  ghost predicate Records(s: System, a: Action) { NeedsWriteLock(s, a) && !GuardHeld(s) }

  /** The latest of the failures recorded so far. */
  ghost function LatestAfter(latest: Option<nat>, s: System, a: Action): Option<nat> {
    if !Records(s, a) then latest
    else if latest.Some? && PcOf(s, a.thread).at < latest.value then latest
    else Some(PcOf(s, a.thread).at)
  }

  /** A report whose time was read before that of another one is written after it. */
  ghost predicate SetsBack(s: System, a: Action) {
    Records(s, a) && s.mem.lastFailure.Some? && PcOf(s, a.thread).at < s.mem.lastFailure.value
  }

  ghost predicate NeverSetBack(s: System, cfg: Config, acts: seq<Action>)
    decreases |acts|
  {
    acts == [] || (!SetsBack(s, acts[0]) && NeverSetBack(Step(s, cfg, acts[0]), cfg, acts[1..]))
  }

  ghost function Latest(latest: Option<nat>, s: System, cfg: Config, acts: seq<Action>): Option<nat>
    decreases |acts|
  {
    if acts == [] then latest else Latest(LatestAfter(latest, s, acts[0]), Step(s, cfg, acts[0]), cfg, acts[1..])
  }

  lemma {:induction false} LatestAppends(latest: Option<nat>, s: System, cfg: Config, acts: seq<Action>, a: Action)
    ensures Latest(latest, s, cfg, acts + [a]) == LatestAfter(Latest(latest, s, cfg, acts), Run(s, cfg, acts), a)
    decreases |acts|
  {
    if acts == [] {
      assert acts + [a] == [a] && [a][1..] == [];
    } else {
      assert (acts + [a])[1..] == acts[1..] + [a];
      LatestAppends(LatestAfter(latest, s, acts[0]), Step(s, cfg, acts[0]), cfg, acts[1..], a);
    }
  }

  ghost predicate LatestThroughout(latest: Option<nat>, s: System, cfg: Config, acts: seq<Action>)
    decreases |acts|
  {
    && s.mem.lastFailure == latest
    && (acts == [] || LatestThroughout(LatestAfter(latest, s, acts[0]), Step(s, cfg, acts[0]), cfg, acts[1..]))
  }

  lemma {:induction false} LatestThroughoutExactlyWhen(s: System, cfg: Config, acts: seq<Action>)
    ensures LatestThroughout(s.mem.lastFailure, s, cfg, acts) <==> NeverSetBack(s, cfg, acts)
    ensures NeverSetBack(s, cfg, acts) ==> Run(s, cfg, acts).mem.lastFailure == Latest(s.mem.lastFailure, s, cfg, acts)
    decreases |acts|
  {
    if acts != [] {
      LatestThroughoutExactlyWhen(Step(s, cfg, acts[0]), cfg, acts[1..]);
      var u := Step(s, cfg, acts[0]);
      assert SetsBack(s, acts[0]) || u.mem.lastFailure == LatestAfter(s.mem.lastFailure, s, acts[0]);
    }
  }

  /** The record is never later than the latest failure, so nobody is refused for too long. */
  lemma {:induction false} RecordIsNoLater(latest: Option<nat>, s: System, cfg: Config, acts: seq<Action>)
    requires NoLater(s.mem.lastFailure, latest)
    ensures NoLater(Run(s, cfg, acts).mem.lastFailure, Latest(latest, s, cfg, acts))
    decreases |acts|
  {
    if acts != [] {
      RecordIsNoLater(LatestAfter(latest, s, acts[0]), Step(s, cfg, acts[0]), cfg, acts[1..]);
    }
  }

  predicate NoLater(a: Option<nat>, b: Option<nat>) { a.Some? == b.Some? && (a.Some? ==> a.value <= b.value) }

  /** After any interleaving, an open breaker refuses exactly until the timeout since the latest failure,
      exactly when that is the failure on record or its timeout has passed already. */
  lemma RefusesForLatestExactlyWhen(cfg: Config, acts: seq<Action>)
    requires Run(QUIET, cfg, acts).mem.state == Open
    ensures var mem, latest, clock := Run(QUIET, cfg, acts).mem, Latest(None, QUIET, cfg, acts), End(0, acts);
            && latest.Some?
            && ((forall now | now >= clock :: Allow(mem, cfg, now).1 <==> now >= latest.value + cfg.resetTimeout)
                <==> mem.lastFailure == latest || clock >= latest.value + cfg.resetTimeout)
  {
    RunStaysSound(QUIET, cfg, acts);
    RecordIsNoLater(None, QUIET, cfg, acts);
    var mem, latest, clock := Run(QUIET, cfg, acts).mem, Latest(None, QUIET, cfg, acts), End(0, acts);
    if mem.lastFailure != latest && clock < latest.value + cfg.resetTimeout {
      var due := mem.lastFailure.value + cfg.resetTimeout;
      var now := if due >= clock then due else clock;
      assert Allow(mem, cfg, now).1 && now < latest.value + cfg.resetTimeout;
    }
  }

  // ── When a closed breaker is below its limit ─────────────────────

  /** Some thread other than `but` is about to open the breaker or to reset its count. */
  ghost predicate OthersSettle(s: System, cfg: Config, but: Option<Thread>) {
    exists t :: t in s.pcs && Some(t) != but && (WillOpen(cfg, s.pcs[t]) || s.pcs[t] == StoresZero)
  }

  /** A closed breaker whose limit is counted is about to be opened or reset. */
  ghost predicate Settled(s: System, cfg: Config) {
    s.mem.state == Closed && s.mem.count >= Limit(cfg) ==> OthersSettle(s, cfg, None)
  }

  /** A failure that began while the breaker was open completes the limit of the closed one. */
  ghost predicate Overcounts(s: System, cfg: Config, a: Action) {
    && a.move == Continue && PcOf(s, a.thread) == Counts(Open)
    && s.mem.state == Closed && Incremented(s.mem.count) >= Limit(cfg) && !OthersSettle(s, cfg, Some(a.thread))
  }

  lemma SettlersRemain(s: System, cfg: Config, a: Action)
    requires OthersSettle(s, cfg, Some(a.thread))
    ensures OthersSettle(Step(s, cfg, a), cfg, None)
  {
    var u := Step(s, cfg, a);
    var t :| t in s.pcs && Some(t) != Some(a.thread) && (WillOpen(cfg, s.pcs[t]) || s.pcs[t] == StoresZero);
    assert t in u.pcs && u.pcs[t] == s.pcs[t];
  }

  lemma SettledExactlyWhen(s: System, cfg: Config, a: Action)
    requires Settled(s, cfg)
    ensures Settled(Step(s, cfg, a), cfg) <==> !Overcounts(s, cfg, a)
  {
    var u := Step(s, cfg, a);
    if OthersSettle(s, cfg, Some(a.thread)) {
      SettlersRemain(s, cfg, a);
    } else if a.move == Continue && PcOf(s, a.thread).Counts? {
      CountSettlesExactlyWhen(s, cfg, a);
    } else {
      OtherStepsSettle(s, cfg, a);
    }
  }

  lemma CountSettlesExactlyWhen(s: System, cfg: Config, a: Action)
    requires a.move == Continue && PcOf(s, a.thread).Counts? && !OthersSettle(s, cfg, Some(a.thread))
    ensures Settled(Step(s, cfg, a), cfg) <==> !Overcounts(s, cfg, a)
  {
    var u, pc := Step(s, cfg, a), PcOf(s, a.thread);
    assert u.pcs[a.thread] == TimesFailure(pc.seen, Incremented(s.mem.count));
    assert u.mem.state == s.mem.state && u.mem.count == Incremented(s.mem.count);
    forall t | t in u.pcs && t != a.thread
      ensures !WillOpen(cfg, u.pcs[t]) && u.pcs[t] != StoresZero
    {
      assert t in s.pcs && Some(t) != Some(a.thread);
    }
  }

  lemma OtherStepsSettle(s: System, cfg: Config, a: Action)
    requires Settled(s, cfg) && !OthersSettle(s, cfg, Some(a.thread))
             && !(a.move == Continue && PcOf(s, a.thread).Counts?)
    ensures Settled(Step(s, cfg, a), cfg)
  {
    var u := Step(s, cfg, a);
    if s.mem.state == Closed && s.mem.count >= Limit(cfg) {
      var t :| t in s.pcs && (WillOpen(cfg, s.pcs[t]) || s.pcs[t] == StoresZero);
      assert t == a.thread;
    }
    assert a.thread in u.pcs || u == s;
  }

  ghost predicate NoneOvercounts(s: System, cfg: Config, acts: seq<Action>)
    decreases |acts|
  {
    acts == [] || (!Overcounts(s, cfg, acts[0]) && NoneOvercounts(Step(s, cfg, acts[0]), cfg, acts[1..]))
  }

  ghost predicate SettledThroughout(s: System, cfg: Config, acts: seq<Action>)
    decreases |acts|
  {
    Settled(s, cfg) && (acts == [] || SettledThroughout(Step(s, cfg, acts[0]), cfg, acts[1..]))
  }

  lemma {:induction false} SettledThroughoutExactlyWhen(s: System, cfg: Config, acts: seq<Action>)
    requires Settled(s, cfg)
    ensures SettledThroughout(s, cfg, acts) <==> NoneOvercounts(s, cfg, acts)
    ensures NoneOvercounts(s, cfg, acts) ==> Settled(Run(s, cfg, acts), cfg)
    decreases |acts|
  {
    if acts != [] {
      SettledExactlyWhen(s, cfg, acts[0]);
      if !Overcounts(s, cfg, acts[0]) {
        SettledThroughoutExactlyWhen(Step(s, cfg, acts[0]), cfg, acts[1..]);
      }
    }
  }

  /** At rest, a closed breaker is below its limit exactly when it is settled. */
  lemma RestIsBelowLimitExactlyWhen(s: System, cfg: Config)
    requires AllIdle(s)
    ensures (s.mem.state == Closed ==> s.mem.count < Limit(cfg)) <==> Settled(s, cfg)
  {
  }

  /** Whoever is about to count a failure it saw as one of an open breaker still finds it open. */
  ghost predicate CountersCurrent(s: System) {
    forall t | t in s.pcs && s.pcs[t] == Counts(Open) :: s.mem.state == Open
  }

  /** The action takes the breaker out of the open state under such a thread. */
  ghost predicate LeavesCounterBehind(s: System, cfg: Config, a: Action) {
    && s.mem.state == Open && Step(s, cfg, a).mem.state != Open
    && exists t :: t in s.pcs && s.pcs[t] == Counts(Open)
  }

  lemma CountersStayCurrentExactlyWhen(s: System, cfg: Config, a: Action)
    requires CountersCurrent(s)
    ensures CountersCurrent(Step(s, cfg, a)) <==> !LeavesCounterBehind(s, cfg, a)
  {
    var u := Step(s, cfg, a);
    if LeavesCounterBehind(s, cfg, a) {
      var t :| t in s.pcs && s.pcs[t] == Counts(Open);
      assert t in u.pcs && u.pcs[t] == Counts(Open);
    } else {
      forall t | t in u.pcs && u.pcs[t] == Counts(Open)
        ensures u.mem.state == Open
      {
        assert t != a.thread ==> t in s.pcs && s.pcs[t] == Counts(Open);
      }
    }
  }

  ghost predicate NoneLeftBehind(s: System, cfg: Config, acts: seq<Action>)
    decreases |acts|
  {
    acts == [] || (!LeavesCounterBehind(s, cfg, acts[0]) && NoneLeftBehind(Step(s, cfg, acts[0]), cfg, acts[1..]))
  }

  lemma {:induction false} NoneLeftBehindNoneOvercounts(s: System, cfg: Config, acts: seq<Action>)
    requires CountersCurrent(s) && NoneLeftBehind(s, cfg, acts)
    ensures NoneOvercounts(s, cfg, acts)
    decreases |acts|
  {
    if acts != [] {
      CountersStayCurrentExactlyWhen(s, cfg, acts[0]);
      NoneLeftBehindNoneOvercounts(Step(s, cfg, acts[0]), cfg, acts[1..]);
      assert PcOf(s, acts[0].thread) == Counts(Open) ==> acts[0].thread in s.pcs;
    }
  }

  /** However calls interleave, if the breaker never leaves the open state while a thread that saw it open has
      yet to count its failure, then at rest a closed breaker is below its limit. */
  lemma ClosedAtRestIsBelowLimit(cfg: Config, acts: seq<Action>)
    requires NoneLeftBehind(QUIET, cfg, acts) && AllIdle(Run(QUIET, cfg, acts))
    ensures var mem := Run(QUIET, cfg, acts).mem; mem.state == Closed ==> mem.count < Limit(cfg)
  {
    NoneLeftBehindNoneOvercounts(QUIET, cfg, acts);
    SettledThroughoutExactlyWhen(QUIET, cfg, acts);
    RestIsBelowLimitExactlyWhen(Run(QUIET, cfg, acts), cfg);
  }

  // ── What does not survive interleaving ───────────────────────────

  const SENSITIVE := Config(1, 10)

  /** The schedule leads to `s` at instant `now`. */
  ghost predicate Leads(acts: seq<Action>, s: System, now: nat) {
    && Run(QUIET, SENSITIVE, acts) == s && TimedFrom(0, acts)
    && forall i :: 0 <= i < |acts| ==> acts[i].now <= now
  }

  ghost function LatestOf(acts: seq<Action>): Option<nat> { Latest(None, QUIET, SENSITIVE, acts) }

  /** Carries out one more action of a schedule. */
  lemma Then(acts: seq<Action>, s: System, was: nat, thread: Thread, move: Move, now: nat)
    returns (more: seq<Action>, t: System)
    requires Leads(acts, s, was) && was <= now
    ensures t == Step(s, SENSITIVE, Action(thread, move, now)) && Leads(more, t, now) && End(0, more) == now
    ensures LatestOf(more) == LatestAfter(LatestOf(acts), s, Action(thread, move, now))
  {
    more := acts + [Action(thread, move, now)];
    RunAppends(QUIET, SENSITIVE, acts, Action(thread, move, now));
    LatestAppends(None, QUIET, SENSITIVE, acts, Action(thread, move, now));
    t := Step(s, SENSITIVE, Action(thread, move, now));
  }

  /** A thread reports a failure up to its stamp. */
  lemma ThenReport(acts: seq<Action>, s: System, was: nat, thread: Thread, now: nat)
    returns (more: seq<Action>, t: System)
    requires Leads(acts, s, was) && was <= now && PcOf(s, thread) == Idle
    ensures Leads(more, t, now) && LatestOf(more) == LatestOf(acts)
    ensures var c := Incremented(s.mem.count);
            t == System(s.mem.(count := c), s.pcs[thread := StampsFailure(s.mem.state, c, now)])
  {
    var _ := TimedReport(s, SENSITIVE, thread, now);
    more, t := Then(acts, s, was, thread, StartFailure, now);
    more, t := Then(more, t, now, thread, Continue, now);
    more, t := Then(more, t, now, thread, Continue, now);
  }

  /** It carries on until it has opened the breaker. */
  lemma ThenOpen(acts: seq<Action>, s: System, thread: Thread, now: nat) returns (more: seq<Action>, t: System)
    requires Leads(acts, s, now) && PcOf(s, thread) == StoresOpen
    ensures Leads(more, t, now) && LatestOf(more) == LatestOf(acts) && End(0, more) == now
    ensures t == System(s.mem.(state := Open, openedAt := Some(now)), s.pcs[thread := Idle])
  {
    OpeningAlone(s, s, SENSITIVE, Action(thread, Continue, now));
    more, t := Then(acts, s, now, thread, Continue, now);
    more, t := Then(more, t, now, thread, Continue, now);
    more, t := Then(more, t, now, thread, Continue, now);
  }

  /** One thread reports a failure at instant 0, which reaches the limit. It opens the breaker, and does nothing
      more. */
  lemma OpenedByThreadZero() returns (acts: seq<Action>, s: System)
    ensures Leads(acts, s, 0) && s == System(Breaker(Open, 1, Some(0), Some(0)), map[0 := Idle])
  {
    acts, s := ThenReport([], QUIET, 0, 0, 0);
    acts, s := Then(acts, s, 0, 0, Continue, 0);
    assert s == System(Breaker(Closed, 1, Some(0), None), map[0 := StoresOpen]);
    acts, s := ThenOpen(acts, s, 0, 0);
    assert s.pcs == map[0 := Idle];
  }

  /** A second thread begins to report a failure; the first asks and is let through. */
  lemma HalfOpenUnderLateFailure() returns (acts: seq<Action>, s: System)
    ensures Leads(acts, s, 10)
    ensures s == System(Breaker(HalfOpen, 1, Some(0), Some(0)), map[0 := Idle, 1 := Counts(Open)])
  {
    acts, s := OpenedByThreadZero();
    acts, s := Then(acts, s, 0, 1, StartFailure, 10);
    acts, s := Then(acts, s, 10, 0, StartAllow, 10);
    acts, s := Then(acts, s, 10, 0, Continue, 10);
    acts, s := Then(acts, s, 10, 0, Continue, 10);
    assert s.pcs == map[0 := Idle, 1 := Counts(Open)];
  }

  /** Its trial succeeds. */
  lemma ClosedUnderLateFailure() returns (acts: seq<Action>, s: System)
    ensures Leads(acts, s, 11)
    ensures s == System(Breaker(Closed, 0, Some(0), Some(0)), map[0 := Idle, 1 := Counts(Open)])
  {
    acts, s := HalfOpenUnderLateFailure();
    acts, s := Then(acts, s, 10, 0, StartSuccess, 11);
    acts, s := Then(acts, s, 11, 0, Continue, 11);
    acts, s := Then(acts, s, 11, 0, Continue, 11);
    assert s.pcs == map[0 := Idle, 1 := Counts(Open)];
  }

  /** A failure that began while the breaker was open can be counted after it has closed again: at rest the
      breaker is then closed with its limit already reached, which no sequential run can do. */
  lemma LateFailureOvercounts()
    ensures exists acts :: var s := Run(QUIET, SENSITIVE, acts);
              TimedFrom(0, acts) && AllIdle(s) && s.mem.state == Closed && s.mem.count >= Limit(SENSITIVE)
  {
    var acts, s := ClosedUnderLateFailure();
    acts, s := LateReport(acts, s, 11);
    assert AllIdle(s);
  }

  /** The second thread finishes its report. */
  lemma LateReport(acts: seq<Action>, s: System, now: nat) returns (more: seq<Action>, t: System)
    requires Leads(acts, s, now) && s.pcs == map[0 := Idle, 1 := Counts(Open)]
    ensures Leads(more, t, now) && End(0, more) == now && t.pcs == map[0 := Idle, 1 := Idle]
    ensures t.mem == s.mem.(count := Incremented(s.mem.count), lastFailure := Some(now))
  {
    more, t := Then(acts, s, now, 1, Continue, now);
    more, t := Then(more, t, now, 1, Continue, now);
    assert t.pcs == map[0 := Idle, 1 := StampsFailure(Open, Incremented(s.mem.count), now)];
    more, t := Then(more, t, now, 1, Continue, now);
  }

  /** The same failure can be counted while the trial is still under way: at rest the breaker is then half-open
      at the very instant of that failure, so a request passes although no part of the reset timeout has. */
  lemma LateFailureLeavesTrialEarly()
    ensures exists acts :: var s, now := Run(QUIET, SENSITIVE, acts), End(0, acts);
              && TimedFrom(0, acts) && AllIdle(s) && s.mem.state == HalfOpen && s.mem.lastFailure == Some(now)
              && Allow(s.mem, SENSITIVE, now).1
  {
    var acts, s := HalfOpenUnderLateFailure();
    acts, s := LateReport(acts, s, 10);
    assert AllIdle(s);
  }

  /** The first thread reads the time of its failure, but does not write it before the second has. */
  lemma WrittenOutOfOrder() returns (acts: seq<Action>, s: System)
    ensures Leads(acts, s, 5) && LatestOf(acts) == Some(5)
    ensures s == System(Breaker(Closed, 2, Some(5), None), map[0 := StampsFailure(Closed, 1, 0), 1 := StoresOpen])
  {
    acts, s := ThenReport([], QUIET, 0, 0, 0);
    assert s == System(Breaker(Closed, 1, None, None), map[0 := StampsFailure(Closed, 1, 0)]);
    acts, s := ThenReport(acts, s, 0, 1, 5);
    assert s.pcs == map[0 := StampsFailure(Closed, 1, 0), 1 := StampsFailure(Closed, 2, 5)];
    acts, s := Then(acts, s, 5, 1, Continue, 5);
    assert s.pcs == map[0 := StampsFailure(Closed, 1, 0), 1 := StoresOpen];
  }

  /** Then the earlier failure is the one on record once both have finished, and a request passes after the timeout
      since it but before that since the latest. */
  lemma RecordSetBackAllowsEarly()
    ensures exists acts :: var s := Run(QUIET, SENSITIVE, acts);
              && TimedFrom(0, acts) && End(0, acts) <= 10 && AllIdle(s) && s.mem.state == Open
              && LatestOf(acts) == Some(5) && Allow(s.mem, SENSITIVE, 10).1
  {
    var acts, s := WrittenOutOfOrder();
    acts, s := Then(acts, s, 5, 0, Continue, 5);
    assert s == System(Breaker(Closed, 2, Some(0), None), map[0 := StoresOpen, 1 := StoresOpen]);
    acts, s := ThenOpen(acts, s, 0, 5);
    acts, s := ThenOpen(acts, s, 1, 5);
    assert AllIdle(s);
  }
}
