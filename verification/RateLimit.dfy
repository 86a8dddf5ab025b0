/** Fixed-window rate limiting with a refilling burst bucket (gateway/src/rate_limit.rs).
    Instants and durations are nanoseconds. */
module RateLimit {

  import opened Common

  const NANOS_PER_MILLI: nat := 1_000_000
  const STALE_AFTER: nat := 120 * NANOS_PER_SEC

  type u32 = n: nat | n < U32_SPAN

  datatype ClientLimit = ClientLimit(count: nat, windowStart: nat, burstTokens: u32, lastRequest: nat)

  datatype Params = Params(maxRequests: nat, burst: u32, window: nat)

  datatype Decision = Allowed | Limited(retryAfterSecs: nat)

  /** `Instant::duration_since`, which saturates at zero. */
  function Since(later: nat, earlier: nat): nat {
    if later >= earlier then later - earlier else 0
  }

  function Min(a: nat, b: nat): nat { if a <= b then a else b }

  function Max(a: nat, b: nat): nat { if a >= b then a else b }

  function Millis(nanos: nat): nat { nanos / NANOS_PER_MILLI }

  function Secs(nanos: nat): nat { nanos / NANOS_PER_SEC }

  /** The refill of a bucket: milliseconds truncated to 32 bits, a wrapping 32-bit product, then
      truncating division. */
  function Refill(elapsed: nat, burst: u32): u32 {
    (Millis(elapsed) % U32_SPAN * burst) % U32_SPAN / 1000
  }

  function NewClient(burst: u32, now: nat): ClientLimit { ClientLimit(0, now, burst, now) }

  function Replenished(tokens: u32, elapsed: nat, burst: u32): u32 {
    Min((tokens + Refill(elapsed, burst)) % U32_SPAN, burst)
  }

  /** What one request does to the entry of its client. */
  function CheckEntry(e: ClientLimit, p: Params, now: nat): (ClientLimit, Decision) {
    var tokens := Replenished(e.burstTokens, Since(now, e.lastRequest), p.burst);
    var expired := Since(now, e.windowStart) > p.window;
    var count := if expired then 0 else e.count;
    var start := if expired then now else e.windowStart;
    if count < p.maxRequests then (ClientLimit(count + 1, start, tokens, now), Allowed)
    else if tokens > 0 then (ClientLimit(count + 1, start, tokens - 1, now), Allowed)
    else (ClientLimit(count, start, tokens, now), Limited(Max(Since(Secs(p.window), Secs(Since(now, start))), 1)))
  }

  function EntryFor(limits: map<string, ClientLimit>, id: string, burst: u32, now: nat): ClientLimit {
    if id in limits then limits[id] else NewClient(burst, now)
  }

  function Retained(limits: map<string, ClientLimit>, now: nat): map<string, ClientLimit> {
    map id | id in limits && Since(now, limits[id].windowStart) < STALE_AFTER :: limits[id]
  }

  class RateLimiter {
    var limits: map<string, ClientLimit>

    constructor ()
      ensures limits == map[]
    {
      limits := map[];
    }

    method CheckLimit(id: string, p: Params, now: nat) returns (r: Decision)
      modifies this
      ensures var step := CheckEntry(EntryFor(old(limits), id, p.burst, now), p, now);
              limits == old(limits)[id := step.0] && r == step.1
    {
      if id !in limits {
        limits := limits[id := NewClient(p.burst, now)];
      }
      var c := limits[id];

      var tokensToAdd := Refill(Since(now, c.lastRequest), p.burst);
      c := c.(burstTokens := Min((c.burstTokens + tokensToAdd) % U32_SPAN, p.burst), lastRequest := now);

      if Since(now, c.windowStart) > p.window {
        c := c.(count := 0, windowStart := now);
      }

      if c.count >= p.maxRequests {
        if c.burstTokens > 0 {
          c := c.(burstTokens := c.burstTokens - 1, count := c.count + 1);
          r := Allowed;
        } else {
          var remaining := Since(Secs(p.window), Secs(Since(now, c.windowStart)));
          r := Limited(Max(remaining, 1));
        }
      } else {
        c := c.(count := c.count + 1);
        r := Allowed;
      }
      limits := limits[id := c];
    }

    method CleanupOldEntries(now: nat)
      modifies this
      ensures limits == Retained(old(limits), now)
    {
      limits := map id | id in limits && Since(now, limits[id].windowStart) < STALE_AFTER :: limits[id];
    }
  }

  // ── Runs ─────────────────────────────────────────────────────────

  datatype Event = Request(id: string, at: nat) | Cleanup(at: nat)

  function Apply(limits: map<string, ClientLimit>, p: Params, e: Event): map<string, ClientLimit> {
    match e
    case Request(id, at) => limits[id := CheckEntry(EntryFor(limits, id, p.burst, at), p, at).0]
    case Cleanup(at) => Retained(limits, at)
  }

  function Verdict(limits: map<string, ClientLimit>, p: Params, id: string, at: nat): Decision {
    CheckEntry(EntryFor(limits, id, p.burst, at), p, at).1
  }

  function Front(run: seq<Event>): seq<Event>
    requires run != []
  {
    run[..|run| - 1]
  }

  function Last(run: seq<Event>): Event
    requires run != []
  {
    run[|run| - 1]
  }

  function LimitsAfter(run: seq<Event>, p: Params): map<string, ClientLimit> {
    if run == [] then map[] else Apply(LimitsAfter(Front(run), p), p, Last(run))
  }

  /** How many requests of `id` the run admits. */
  function Accepted(run: seq<Event>, p: Params, id: string): nat {
    if run == [] then 0
    else
      var before := Accepted(Front(run), p, id);
      var e := Last(run);
      if e.Request? && e.id == id && Verdict(LimitsAfter(Front(run), p), p, id, e.at).Allowed? then before + 1
      else before
  }

  /** The clock never runs backwards. */
  ghost predicate Timed(run: seq<Event>) {
    forall i, j :: 0 <= i < j < |run| ==> run[i].at <= run[j].at
  }

  ghost predicate NoCleanup(run: seq<Event>) {
    forall i :: 0 <= i < |run| ==> run[i].Request?
  }

  /** Time from the first to the last event. */
  function Span(run: seq<Event>): nat {
    if run == [] then 0 else Since(Last(run).at, run[0].at)
  }

  // ── The admission bound ──────────────────────────────────────────

  /** The account of one client: its last known entry, the window resets so far, and where each
      admission came from. */
  datatype Ledger = Ledger(entry: ClientLimit, resets: nat, quota: nat, spent: nat)

  ghost predicate Balanced(l: Ledger, p: Params, start: nat) {
    && start <= l.entry.windowStart <= l.entry.lastRequest <= l.entry.windowStart + p.window
    && l.entry.burstTokens <= p.burst
    && l.quota <= p.maxRequests * l.resets + Min(l.entry.count, p.maxRequests)
    && l.resets * (p.window + 1) <= l.entry.windowStart - start
    && BurstBalanced(l.entry, l.spent, p, start)
  }

  /** Tokens spent and in the bucket, against the bucket and what it earned up to the current window and
      since. Each part is truncated to milliseconds on its own. */
  ghost predicate BurstBalanced(e: ClientLimit, spent: nat, p: Params, start: nat) {
    && start <= e.windowStart <= e.lastRequest
    && 1000 * (spent + e.burstTokens) <= 1000 * p.burst + p.burst * Earning(e, start)
  }

  /** The milliseconds an entry has been credited with. */
  function Earning(e: ClientLimit, start: nat): nat {
    Millis(Since(e.windowStart, start)) + Millis(Since(e.lastRequest, e.windowStart))
  }

  /** The entry either stands as the ledger knows it, or was removed as stale. */
  ghost predicate Tracks(limits: map<string, ClientLimit>, id: string, l: Ledger, clock: nat) {
    && l.entry.lastRequest <= clock
    && if id in limits then limits[id] == l.entry else clock >= l.entry.windowStart + STALE_AFTER
  }

  lemma RefillIsBounded(elapsed: nat, burst: u32)
    ensures 1000 * Refill(elapsed, burst) <= burst * Millis(elapsed)
  {
    var ms := Millis(elapsed);
    assert ms % U32_SPAN <= ms;
    assert ms % U32_SPAN * burst <= ms * burst;
    assert (ms % U32_SPAN * burst) % U32_SPAN <= ms % U32_SPAN * burst;
  }

  lemma MillisSuperadditive(a: nat, b: nat)
    ensures Millis(a) + Millis(b) <= Millis(a + b)
  {
  }

  lemma ProductMonotone(k: nat, a: nat, b: nat)
    requires a <= b
    ensures k * a <= k * b
  {
  }

  /** What the bucket may hold after a refill over `elapsed`, on top of everything already spent. */
  lemma RefillKeepsBudget(burst: u32, spent: nat, tokens: nat, before: nat, elapsed: nat, after: nat)
    requires 1000 * (spent + tokens) <= 1000 * burst + burst * before && before + Millis(elapsed) <= after
    ensures 1000 * (spent + tokens + Refill(elapsed, burst)) <= 1000 * burst + burst * after
  {
    RefillIsBounded(elapsed, burst);
    ProductMonotone(burst, before + Millis(elapsed), after);
    assert burst * (before + Millis(elapsed)) == burst * before + burst * Millis(elapsed);
  }

  /** A bucket handed out full again is within the budget when a second's worth has been earned since. */
  lemma FullBucketKeepsBudget(burst: u32, spent: nat, tokens: nat, before: nat, after: nat)
    requires 1000 * (spent + tokens) <= 1000 * burst + burst * before && before + 1000 <= after
    ensures 1000 * (spent + burst) <= 1000 * burst + burst * after
  {
    ProductMonotone(burst, before + 1000, after);
    assert burst * (before + 1000) == burst * before + burst * 1000;
  }

  /** Charges the request to the account: a window reset, then quota or burst. */
  ghost function Charge(l: Ledger, fromEntry: ClientLimit, p: Params, now: nat): Ledger {
    var (entry, decision) := CheckEntry(fromEntry, p, now);
    var expired := Since(now, l.entry.windowStart) > p.window;
    var count := if expired then 0 else l.entry.count;
    Ledger(
      entry,
      if expired then l.resets + 1 else l.resets,
      if count < p.maxRequests then l.quota + 1 else l.quota,
      if count >= p.maxRequests && decision.Allowed? then l.spent + 1 else l.spent)
  }

  /** The part of `Balanced` about windows: quota admissions and the spacing of resets. */
  ghost predicate QuotaBalanced(l: Ledger, p: Params, start: nat) {
    && start <= l.entry.windowStart <= l.entry.lastRequest <= l.entry.windowStart + p.window
    && l.quota <= p.maxRequests * l.resets + Min(l.entry.count, p.maxRequests)
    && l.resets * (p.window + 1) <= l.entry.windowStart - start
  }

  lemma ChargeKeepsQuota(l: Ledger, from: ClientLimit, p: Params, start: nat, now: nat)
    requires QuotaBalanced(l, p, start) && l.entry.lastRequest <= now
    requires from == l.entry || (from == NewClient(p.burst, now) && now > l.entry.windowStart + p.window)
    ensures QuotaBalanced(Charge(l, from, p, now), p, start)
  {
    var l' := Charge(l, from, p, now);
    if now - l.entry.windowStart > p.window {
      assert l'.entry.windowStart == now;
      assert p.maxRequests * (l.resets + 1) == p.maxRequests * l.resets + p.maxRequests;
      assert (l.resets + 1) * (p.window + 1) == l.resets * (p.window + 1) + p.window + 1;
    }
  }

  /** A request moves tokens between the bucket and the spent count, after one refill. */
  lemma SpendingConserves(l: Ledger, from: ClientLimit, p: Params, now: nat)
    requires from == l.entry || (from == NewClient(p.burst, now) && now > l.entry.windowStart + p.window)
    ensures var l' := Charge(l, from, p, now);
            && l'.entry.burstTokens <= p.burst
            && l'.spent + l'.entry.burstTokens <= l.spent + p.burst
            && (from == l.entry ==>
                  l'.spent + l'.entry.burstTokens
                    <= l.spent + l.entry.burstTokens + Refill(Since(now, l.entry.lastRequest), p.burst))
  {
  }

  /** What a request adds to the credited milliseconds: all since the last one, and a second more when the
      entry had been removed as stale. */
  lemma EarningGrows(l: Ledger, from: ClientLimit, p: Params, start: nat, now: nat)
    requires start <= l.entry.windowStart <= l.entry.lastRequest <= Min(now, l.entry.windowStart + p.window)
    requires from == l.entry || (from == NewClient(p.burst, now) && now >= l.entry.windowStart + STALE_AFTER)
    ensures var e := Charge(l, from, p, now).entry;
            && Earning(e, start) >= Earning(l.entry, start) + Millis(now - l.entry.lastRequest)
            && (from != l.entry && Millis(p.window) <= 119_000 ==> Earning(e, start) >= Earning(l.entry, start) + 1000)
  {
    var e := Charge(l, from, p, now).entry;
    assert e.lastRequest == now && (e.windowStart == now || (from == l.entry && e.windowStart == l.entry.windowStart));
    EarningAt(l.entry, e, start, now);
  }

  lemma EarningAt(was: ClientLimit, e: ClientLimit, start: nat, now: nat)
    requires start <= was.windowStart <= was.lastRequest <= now && e.lastRequest == now
    requires e.windowStart == now || e.windowStart == was.windowStart
    ensures Earning(e, start) >= Earning(was, start) + Millis(now - was.lastRequest)
    ensures now >= was.windowStart + STALE_AFTER && Millis(was.lastRequest - was.windowStart) <= 119_000 ==>
              e.windowStart == was.windowStart || Earning(e, start) >= Earning(was, start) + 1000
  {
    var ws, last := was.windowStart, was.lastRequest;
    MillisSuperadditive(last - ws, now - last);
    MillisSuperadditive(ws - start, now - ws);
  }

  lemma ChargeKeepsBurst(l: Ledger, from: ClientLimit, p: Params, start: nat, now: nat)
    requires BurstBalanced(l.entry, l.spent, p, start)
             && l.entry.lastRequest <= Min(now, l.entry.windowStart + p.window)
    requires from == l.entry || (from == NewClient(p.burst, now) && now >= l.entry.windowStart + STALE_AFTER
                                 && Millis(p.window) <= 119_000)
    ensures var l' := Charge(l, from, p, now);
            l'.entry.burstTokens <= p.burst && BurstBalanced(l'.entry, l'.spent, p, start)
  {
    var l' := Charge(l, from, p, now);
    var before, after := Earning(l.entry, start), Earning(l'.entry, start);
    SpendingConserves(l, from, p, now);
    EarningGrows(l, from, p, start, now);
    if from == l.entry {
      RefillKeepsBudget(p.burst, l.spent, l.entry.burstTokens, before, now - l.entry.lastRequest, after);
    } else {
      FullBucketKeepsBudget(p.burst, l.spent, l.entry.burstTokens, before, after);
    }
  }

  /** One request keeps the account balanced, whether or not its entry had been cleaned up. */
  lemma ChargeKeepsBalance(limits: map<string, ClientLimit>, id: string, l: Ledger, p: Params, start: nat, now: nat)
    requires Balanced(l, p, start) && Tracks(limits, id, l, now)
    requires id in limits || Millis(p.window) <= 119_000
    ensures var l' := Charge(l, EntryFor(limits, id, p.burst, now), p, now);
            Balanced(l', p, start) && Tracks(Apply(limits, p, Request(id, now)), id, l', now)
  {
    var from := EntryFor(limits, id, p.burst, now);
    ChargeKeepsQuota(l, from, p, start, now);
    ChargeKeepsBurst(l, from, p, start, now);
  }

  /** The account of `id` over a run; `None` before its first request. */
  datatype Account = NoRequests | Open(ledger: Ledger)

  ghost function AccountAfter(run: seq<Event>, p: Params, id: string): Account {
    if run == [] then NoRequests
    else
      var before := AccountAfter(Front(run), p, id);
      var e := Last(run);
      if !e.Request? || e.id != id then before
      else
        var from := EntryFor(LimitsAfter(Front(run), p), id, p.burst, e.at);
        match before
        case NoRequests => Open(Charge(Ledger(from, 0, 0, 0), from, p, e.at))
        case Open(l) => Open(Charge(l, from, p, e.at))
  }

  lemma {:induction false} AccountIsBalanced(run: seq<Event>, p: Params, id: string)
    requires Timed(run)
    requires NoCleanup(run) || Millis(p.window) <= 119_000
    ensures match AccountAfter(run, p, id)
            case NoRequests => id !in LimitsAfter(run, p) && Accepted(run, p, id) == 0
            case Open(l) =>
              && run != [] && Balanced(l, p, run[0].at)
              && Tracks(LimitsAfter(run, p), id, l, Last(run).at)
              && (NoCleanup(run) ==> id in LimitsAfter(run, p))
              && Accepted(run, p, id) == l.quota + l.spent
  {
    if run != [] {
      var front, e := Front(run), Last(run);
      AccountIsBalanced(front, p, id);
      var limits := LimitsAfter(front, p);
      if e.Request? && e.id == id {
        match AccountAfter(front, p, id)
        case NoRequests =>
          var l := Ledger(NewClient(p.burst, e.at), 0, 0, 0);
          ChargeFromScratch(l, p, run[0].at, e.at);
        case Open(l) =>
          ChargeKeepsBalance(limits, id, l, p, run[0].at, e.at);
          AdmissionIsCharged(l, limits, id, p, e.at);
      }
    }
  }

  lemma ChargeFromScratch(l: Ledger, p: Params, start: nat, now: nat)
    requires l == Ledger(NewClient(p.burst, now), 0, 0, 0) && start <= now
    ensures Balanced(Charge(l, l.entry, p, now), p, start)
    ensures var l' := Charge(l, l.entry, p, now);
            l'.quota + l'.spent == if CheckEntry(l.entry, p, now).1.Allowed? then 1 else 0
  {
    ChargeKeepsQuota(l, l.entry, p, now, now);
    assert BurstBalanced(l.entry, 0, p, start) by {
      ProductMonotone(p.burst, 0, Earning(l.entry, start));
    }
    ChargeKeepsBurst(l, l.entry, p, start, now);
  }

  /** Every admission is charged exactly once, to the quota or to the bucket. */
  lemma AdmissionIsCharged(l: Ledger, limits: map<string, ClientLimit>, id: string, p: Params, now: nat)
    requires Tracks(limits, id, l, now)
    requires id in limits || now > l.entry.windowStart + p.window
    ensures var from := EntryFor(limits, id, p.burst, now);
            var l' := Charge(l, from, p, now);
            l'.quota + l'.spent == l.quota + l.spent + if CheckEntry(from, p, now).1.Allowed? then 1 else 0
  {
  }

  /** The most that a run of length `t` may admit for one client. */
  function Bound(p: Params, t: nat): nat {
    var windows, earned: nat := 1 + t / (p.window + 1), p.burst * Millis(t);
    p.maxRequests * windows + p.burst + earned / 1000
  }

  /** Main bound. Over any run of length T, however requests of all clients and cleanups interleave and
      whatever the 32-bit arithmetic does, one client gets at most its quota per window plus the
      bucket plus what the bucket earned over T. Cleanups do not weaken the bound for windows below
      119.001 s. */
  lemma {:induction false} AdmissionsAreBounded(run: seq<Event>, p: Params, id: string)
    requires Timed(run)
    requires NoCleanup(run) || Millis(p.window) <= 119_000
    ensures Accepted(run, p, id) <= Bound(p, Span(run))
  {
    AccountIsBalanced(run, p, id);
    match AccountAfter(run, p, id)
    case NoRequests =>
    case Open(l) => TotalOverSpan(run, l, p);
  }

  lemma TotalOverSpan(run: seq<Event>, l: Ledger, p: Params)
    requires run != [] && Timed(run) && Balanced(l, p, run[0].at) && l.entry.lastRequest <= Last(run).at
    ensures l.quota + l.spent <= Bound(p, Span(run))
  {
    AccountTotal(l, p, run[0].at, Span(run));
  }

  lemma AccountTotal(l: Ledger, p: Params, start: nat, t: nat)
    requires Balanced(l, p, start) && l.entry.lastRequest <= start + t
    ensures l.quota + l.spent <= Bound(p, t)
  {
    QuotaTotal(l, p, start, t);
    BurstTotal(l, p, start, t);
  }

  lemma QuotaTotal(l: Ledger, p: Params, start: nat, t: nat)
    requires QuotaBalanced(l, p, start) && l.entry.lastRequest <= start + t
    ensures l.quota <= p.maxRequests * (1 + t / (p.window + 1))
  {
    QuotientBound(l.resets, p.window + 1, t);
    ProductMonotone(p.maxRequests, l.resets + 1, 1 + t / (p.window + 1));
    assert p.maxRequests * (l.resets + 1) == p.maxRequests * l.resets + p.maxRequests;
  }

  lemma BurstTotal(l: Ledger, p: Params, start: nat, t: nat)
    requires BurstBalanced(l.entry, l.spent, p, start) && l.entry.lastRequest <= start + t
    ensures l.spent <= p.burst + p.burst * Millis(t) / 1000
  {
    var ws, last := l.entry.windowStart, l.entry.lastRequest;
    MillisSuperadditive(ws - start, last - ws);
    ProductMonotone(p.burst, Earning(l.entry, start), Millis(t));
    var earned := p.burst * Millis(t);
    assert 1000 * l.spent <= 1000 * p.burst + earned;
  }

  lemma QuotientBound(k: nat, d: nat, t: nat)
    requires d > 0 && k * d <= t
    ensures k <= t / d
  {
    assert t == d * (t / d) + t % d;
    if k > t / d {
      ProductMonotone(d, t / d + 1, k);
    }
  }

  // ── Where the bound ends ─────────────────────────────────────────

  /** A timed run from instant zero that leaves client "c" with the entry and that many admissions. */
  ghost predicate Reaches(run: seq<Event>, p: Params, at: nat, e: ClientLimit, accepted: nat) {
    && run != [] && Timed(run) && run[0].at == 0 && Last(run).at == at
    && "c" in LimitsAfter(run, p) && LimitsAfter(run, p)["c"] == e && Accepted(run, p, "c") == accepted
  }

  lemma OneMoreEvent(run: seq<Event>, p: Params, e: Event)
    requires run != [] && Timed(run) && Last(run).at <= e.at
    ensures var more := run + [e];
            && Timed(more) && more[0] == run[0] && Last(more) == e
            && LimitsAfter(more, p) == Apply(LimitsAfter(run, p), p, e)
            && Accepted(more, p, "c") == Accepted(run, p, "c") +
                 if e.Request? && e.id == "c" && Verdict(LimitsAfter(run, p), p, "c", e.at).Allowed? then 1 else 0
  {
    assert Front(run + [e]) == run;
  }

  /** Within the window, one request takes one token. */
  lemma TakeOne(run: seq<Event>, p: Params, before: nat, e: ClientLimit, accepted: nat, at: nat)
    requires Reaches(run, p, before, e, accepted) && before <= at && p.maxRequests == 0
    requires e.windowStart <= e.lastRequest <= at <= e.windowStart + p.window
    requires Replenished(e.burstTokens, at - e.lastRequest, p.burst) > 0
    ensures var tokens := Replenished(e.burstTokens, at - e.lastRequest, p.burst) - 1;
            Reaches(run + [Request("c", at)], p, at, ClientLimit(e.count + 1, e.windowStart, tokens, at), accepted + 1)
  {
    var tokens := Replenished(e.burstTokens, at - e.lastRequest, p.burst) - 1;
    OneMoreEvent(run, p, Request("c", at));
    assert CheckEntry(e, p, at) == (ClientLimit(e.count + 1, e.windowStart, tokens, at), Allowed);
  }

  /** Within the window, `n` requests at one instant are all admitted out of a bucket that holds as many. */
  lemma {:induction false} Drain(run: seq<Event>, p: Params, before: nat, e: ClientLimit, accepted: nat, at: nat,
                                 n: nat)
    returns (more: seq<Event>)
    requires Reaches(run, p, before, e, accepted) && before <= at && p.maxRequests == 0
    requires e.windowStart <= e.lastRequest <= at <= e.windowStart + p.window
    requires 0 < n <= Replenished(e.burstTokens, at - e.lastRequest, p.burst)
    ensures var tokens := Replenished(e.burstTokens, at - e.lastRequest, p.burst) - n;
            Reaches(more, p, at, ClientLimit(e.count + n, e.windowStart, tokens, at), accepted + n)
    decreases n
  {
    if n == 1 {
      TakeOne(run, p, before, e, accepted, at);
      more := run + [Request("c", at)];
    } else {
      more := Drain(run, p, before, e, accepted, at, n - 1);
      var tokens := Replenished(e.burstTokens, at - e.lastRequest, p.burst) - (n - 1);
      NothingElapsed(tokens, p.burst);
      TakeOne(more, p, at, ClientLimit(e.count + n - 1, e.windowStart, tokens, at), accepted + n - 1, at);
      more := more + [Request("c", at)];
    }
  }

  lemma NothingElapsed(tokens: u32, burst: u32)
    requires tokens <= burst
    ensures Replenished(tokens, 0, burst) == tokens
  {
    assert Refill(0, burst) == 0;
  }

  lemma ASecondFills()
    ensures Replenished(0, NANOS_PER_SEC, 1000) == 1000
  {
    assert Refill(NANOS_PER_SEC, 1000) == 1000;
  }

  lemma {:induction false} Rounds(p: Params, k: nat) returns (run: seq<Event>)
    requires p.maxRequests == 0 && p.burst == 1000 && k * NANOS_PER_SEC <= p.window
    ensures Reaches(run, p, k * NANOS_PER_SEC, ClientLimit(1000 * (k + 1), 0, 0, k * NANOS_PER_SEC), 1000 * (k + 1))
    decreases k
  {
    if k == 0 {
      run := FirstAndRest([], p, 0, 0);
    } else {
      run := Rounds(p, k - 1);
      var last := (k - 1) * NANOS_PER_SEC;
      ASecondFills();
      run := Drain(run, p, last, ClientLimit(1000 * k, 0, 0, last), 1000 * k, k * NANOS_PER_SEC, 1000);
    }
  }

  lemma FirstOne(run: seq<Event>, p: Params, at: nat, accepted: nat)
    requires p.maxRequests == 0 && p.burst > 0
    requires "c" !in LimitsAfter(run, p) && Accepted(run, p, "c") == accepted && Timed(run)
    requires if run == [] then at == 0 else run[0].at == 0 && Last(run).at <= at
    ensures Reaches(run + [Request("c", at)], p, at, ClientLimit(1, at, p.burst - 1, at), accepted + 1)
  {
    NothingElapsed(p.burst, p.burst);
    assert CheckEntry(NewClient(p.burst, at), p, at) == (ClientLimit(1, at, p.burst - 1, at), Allowed);
    if run == [] {
      assert Front(run + [Request("c", at)]) == [];
    } else {
      OneMoreEvent(run, p, Request("c", at));
    }
  }

  /** A client without an entry uses up a full bucket at once. */
  lemma FirstAndRest(run: seq<Event>, p: Params, at: nat, accepted: nat) returns (more: seq<Event>)
    requires p.maxRequests == 0 && p.burst > 0
    requires "c" !in LimitsAfter(run, p) && Accepted(run, p, "c") == accepted && Timed(run)
    requires if run == [] then at == 0 else run[0].at == 0 && Last(run).at <= at
    ensures Reaches(more, p, at, ClientLimit(p.burst, at, 0, at), accepted + p.burst)
  {
    FirstOne(run, p, at, accepted);
    more := run + [Request("c", at)];
    if p.burst > 1 {
      NothingElapsed(p.burst - 1, p.burst);
      more := Drain(more, p, at, ClientLimit(1, at, p.burst - 1, at), accepted + 1, at, p.burst - 1);
    }
  }

  /** From a window of 119.001 s on, a cleanup hands out a full bucket before the bucket is earned. */
  lemma BoundFailsFrom119001Millis(window: nat)
    requires Millis(window) > 119_000
    ensures exists run :: Timed(run) &&
              Accepted(run, Params(0, 1000, window), "c") > Bound(Params(0, 1000, window), Span(run))
  {
    var p := Params(0, 1000, window);
    var at := 119 * NANOS_PER_SEC + NANOS_PER_MILLI;
    var run := Rounds(p, 119);
    assert Refill(NANOS_PER_MILLI, 1000) == 1;
    run := Drain(run, p, 119 * NANOS_PER_SEC, ClientLimit(120_000, 0, 0, 119 * NANOS_PER_SEC), 120_000, at, 1);
    OneMoreEvent(run, p, Cleanup(STALE_AFTER));
    run := run + [Cleanup(STALE_AFTER)];
    run := FirstAndRest(run, p, STALE_AFTER, 120_001);
    assert Span(run) == STALE_AFTER && Millis(STALE_AFTER) == 120_000;
  }

  /** The bound holds over all runs, cleanups included, exactly for windows below 119.001 s. */
  lemma BoundHoldsExactlyWhen(window: nat)
    ensures (forall run, max, burst: u32, id :: Timed(run) ==>
               Accepted(run, Params(max, burst, window), id) <= Bound(Params(max, burst, window), Span(run)))
            <==> Millis(window) <= 119_000
  {
    if Millis(window) <= 119_000 {
      forall run, max, burst: u32, id | Timed(run)
        ensures Accepted(run, Params(max, burst, window), id) <= Bound(Params(max, burst, window), Span(run))
      {
        AdmissionsAreBounded(run, Params(max, burst, window), id);
      }
    } else {
      BoundFailsFrom119001Millis(window);
    }
  }

  // ── Removing stale entries cannot be observed ────────────────────

  /** The same requests, never cleaned up after. */
  function WithoutCleanups(run: seq<Event>): (r: seq<Event>)
    ensures NoCleanup(r)
  {
    if run == [] then []
    else if Last(run).Request? then WithoutCleanups(Front(run)) + [Last(run)]
    else WithoutCleanups(Front(run))
  }

  /** The answers the requests of a run receive, in order. */
  function Decisions(run: seq<Event>, p: Params): seq<Decision> {
    if run == [] then []
    else
      var before := Decisions(Front(run), p);
      match Last(run)
      case Request(id, at) => before + [Verdict(LimitsAfter(Front(run), p), p, id, at)]
      case Cleanup(_) => before
  }

  /** `cleaned` lacks exactly entries of `kept` that are stale. */
  ghost predicate SameButStale(cleaned: map<string, ClientLimit>, kept: map<string, ClientLimit>, p: Params,
                               clock: nat) {
    && (forall id | id in kept ::
          && kept[id].windowStart <= kept[id].lastRequest <= kept[id].windowStart + p.window
          && kept[id].lastRequest <= clock && kept[id].burstTokens <= p.burst)
    && (forall id | id in cleaned :: id in kept && cleaned[id] == kept[id])
    && (forall id | id in kept && id !in cleaned :: clock >= kept[id].windowStart + STALE_AFTER)
  }

  predicate Stale(e: ClientLimit, now: nat) { now >= e.windowStart + STALE_AFTER }

  /** The refill since the last request fills the bucket. */
  predicate Filled(e: ClientLimit, p: Params, now: nat) {
    Replenished(e.burstTokens, Since(now, e.lastRequest), p.burst) == p.burst
  }

  /** A stale entry answers like a brand-new one exactly when its bucket has filled up. */
  lemma StaleActsFreshExactlyWhen(e: ClientLimit, p: Params, now: nat)
    requires p.window < STALE_AFTER && e.windowStart <= e.lastRequest && e.burstTokens <= p.burst && Stale(e, now)
    ensures CheckEntry(e, p, now) == CheckEntry(NewClient(p.burst, now), p, now) <==> Filled(e, p, now)
  {
    NothingElapsed(p.burst, p.burst);
    assert now - e.windowStart > p.window;
  }

  /** The entry after `n` requests at one instant. */
  function Repeated(e: ClientLimit, p: Params, now: nat, n: nat): ClientLimit {
    if n == 0 then e else CheckEntry(Repeated(e, p, now, n - 1), p, now).0
  }

  /** What is left of a bucket after `n` requests, the first of which are on the quota. */
  function Left(p: Params, tokens: nat, n: nat): int { tokens - (if n > p.maxRequests then n - p.maxRequests else 0) }

  lemma NextAtOnce(p: Params, now: nat, n: nat, held: u32)
    requires held <= p.burst
    ensures CheckEntry(ClientLimit(n, now, held, now), p, now) ==
              if n < p.maxRequests then (ClientLimit(n + 1, now, held, now), Allowed)
              else if held > 0 then (ClientLimit(n + 1, now, held - 1, now), Allowed)
              else (ClientLimit(n, now, held, now), Limited(Max(Secs(p.window), 1)))
  {
    NothingElapsed(held, p.burst);
  }

  lemma FirstAtOnce(e: ClientLimit, p: Params, now: nat, tokens: nat)
    requires e.lastRequest <= now && now > e.windowStart + p.window && e.burstTokens <= p.burst
    requires tokens == Replenished(e.burstTokens, now - e.lastRequest, p.burst)
    ensures if p.maxRequests + tokens > 0
            then CheckEntry(e, p, now) == (ClientLimit(1, now, Left(p, tokens, 1), now), Allowed)
            else CheckEntry(e, p, now).1.Limited?
  {
  }

  /** An entry whose window has run out admits its quota and then as many requests as its bucket holds. */
  lemma {:induction false} RepeatedIs(e: ClientLimit, p: Params, now: nat, n: nat, tokens: nat)
    requires e.lastRequest <= now && now > e.windowStart + p.window && e.burstTokens <= p.burst
    requires tokens == Replenished(e.burstTokens, now - e.lastRequest, p.burst) && n <= p.maxRequests + tokens
    ensures n > 0 ==> Repeated(e, p, now, n) == ClientLimit(n, now, Left(p, tokens, n), now)
    ensures CheckEntry(Repeated(e, p, now, n), p, now).1.Allowed? <==> n < p.maxRequests + tokens
    decreases n
  {
    FirstAtOnce(e, p, now, tokens);
    if n > 0 {
      RepeatedIs(e, p, now, n - 1, tokens);
      if n > 1 {
        NextAtOnce(p, now, n - 1, Left(p, tokens, n - 1));
      }
      NextAtOnce(p, now, n, Left(p, tokens, n));
    }
  }

  lemma {:induction false} SameFromThenOn(e: ClientLimit, f: ClientLimit, p: Params, now: nat, n: nat)
    requires CheckEntry(e, p, now) == CheckEntry(f, p, now)
    ensures n > 0 ==> Repeated(e, p, now, n) == Repeated(f, p, now, n)
    decreases n
  {
    if n > 1 {
      SameFromThenOn(e, f, p, now, n - 1);
    }
  }

  /** Requests at one instant never tell a stale entry from a brand-new one exactly when its bucket has filled
      up; otherwise enough of them do. */
  lemma StaleIsToldApartExactlyWhen(e: ClientLimit, p: Params, now: nat)
    requires p.window < STALE_AFTER && e.windowStart <= e.lastRequest <= now && e.burstTokens <= p.burst
             && Stale(e, now)
    ensures Filled(e, p, now) <==>
              forall n: nat :: CheckEntry(Repeated(e, p, now, n), p, now).1
                            == CheckEntry(Repeated(NewClient(p.burst, now), p, now, n), p, now).1
  {
    var f := NewClient(p.burst, now);
    if Filled(e, p, now) {
      StaleActsFreshExactlyWhen(e, p, now);
      forall n: nat
        ensures CheckEntry(Repeated(e, p, now, n), p, now).1 == CheckEntry(Repeated(f, p, now, n), p, now).1
      {
        SameFromThenOn(e, f, p, now, n);
      }
    } else {
      var n := UnfilledRefusesFirst(e, p, now);
      assert CheckEntry(Repeated(e, p, now, n), p, now).1 != CheckEntry(Repeated(f, p, now, n), p, now).1;
    }
  }

  lemma UnfilledRefusesFirst(e: ClientLimit, p: Params, now: nat) returns (n: nat)
    requires e.lastRequest <= now && now > e.windowStart + p.window && e.burstTokens <= p.burst && !Filled(e, p, now)
    ensures CheckEntry(Repeated(e, p, now, n), p, now).1.Limited?
    ensures CheckEntry(Repeated(NewClient(p.burst, now), p, now, n), p, now).1.Allowed?
  {
    var tokens := Replenished(e.burstTokens, now - e.lastRequest, p.burst);
    n := p.maxRequests + tokens;
    RepeatedIs(e, p, now, n, tokens);
    FreshRepeatedAllows(p, now, n);
  }

  /** A brand-new entry admits its quota and a full bucket. */
  lemma {:induction false} FreshRepeatedAllows(p: Params, now: nat, n: nat)
    requires n < p.maxRequests + p.burst
    ensures Repeated(NewClient(p.burst, now), p, now, n) == ClientLimit(n, now, Left(p, p.burst, n), now)
    ensures CheckEntry(Repeated(NewClient(p.burst, now), p, now, n), p, now).1.Allowed?
    decreases n
  {
    NextAtOnce(p, now, n, Left(p, p.burst, n));
    if n > 0 {
      FreshRepeatedAllows(p, now, n - 1);
      NextAtOnce(p, now, n - 1, Left(p, p.burst, n - 1));
    }
  }

  /** Which it has, with a window of at most 119 s, unless the client was away long enough for the refill to
      overflow. */
  lemma StaleIsFilled(e: ClientLimit, p: Params, now: nat)
    requires p.window <= STALE_AFTER - NANOS_PER_SEC && Stale(e, now)
    requires e.windowStart <= e.lastRequest <= e.windowStart + p.window && e.burstTokens <= p.burst
    requires Millis(now - e.lastRequest) * p.burst < U32_SPAN
    ensures Filled(e, p, now)
  {
    FullRefill(now - e.lastRequest, p.burst, now - e.lastRequest);
    FillsUp(e.burstTokens, now - e.lastRequest, p.burst);
  }

  lemma FillsUp(tokens: u32, elapsed: nat, burst: u32)
    requires tokens <= burst
    requires tokens == burst || burst <= Refill(elapsed, burst)
    requires elapsed == 0 || burst + Refill(elapsed, burst) < U32_SPAN
    ensures Replenished(tokens, elapsed, burst) == burst
  {
    var refill := Refill(elapsed, burst);
    assert elapsed == 0 ==> refill == 0;
    assert tokens + refill < U32_SPAN;
  }

  /** After a second without overflow the refill alone fills the bucket, and adding it cannot wrap. */
  lemma FullRefill(elapsed: nat, burst: u32, horizon: nat)
    requires NANOS_PER_SEC <= elapsed <= horizon && Millis(horizon) * burst < U32_SPAN
    ensures burst <= Refill(elapsed, burst) && burst + Refill(elapsed, burst) < U32_SPAN
  {
    var ms := Millis(elapsed);
    ProductMonotone(burst, ms, Millis(horizon));
    ProductMonotone(burst, 1000, ms);
    if burst > 0 {
      ProductMonotone(ms, 1, burst);
      assert ms % U32_SPAN == ms;
    }
  }

  /** Whenever a request would find its entry stale, it would find its bucket filled: whatever cleanups there
      are, the entry in question is the one kept without them. */
  ghost predicate BucketsFilled(run: seq<Event>, p: Params) {
    run == [] ||
    (BucketsFilled(Front(run), p)
     && (Last(run).Request? ==>
           FilledIfStale(LimitsAfter(WithoutCleanups(Front(run)), p), p, Last(run).id, Last(run).at)))
  }

  predicate FilledIfStale(kept: map<string, ClientLimit>, p: Params, id: string, at: nat) {
    id in kept && Stale(kept[id], at) ==> Filled(kept[id], p, at)
  }

  /** The run with cleanups and the run without have answered alike, and differ in stale entries only. */
  ghost predicate Simulated(run: seq<Event>, p: Params, clock: nat) {
    && Decisions(run, p) == Decisions(WithoutCleanups(run), p)
    && SameButStale(LimitsAfter(run, p), LimitsAfter(WithoutCleanups(run), p), p, clock)
  }

  lemma RequestStaysSimulated(run: seq<Event>, p: Params, id: string, at: nat)
    requires Simulated(run, p, at) && p.window < STALE_AFTER
    requires FilledIfStale(LimitsAfter(WithoutCleanups(run), p), p, id, at)
    ensures Simulated(run + [Request(id, at)], p, at)
  {
    Extend(run, p, Request(id, at));
    Extend(WithoutCleanups(run), p, Request(id, at));
    RequestKeepsSimulation(LimitsAfter(run, p), LimitsAfter(WithoutCleanups(run), p), p, id, at);
  }

  lemma RequestKeepsSimulation(cleaned: map<string, ClientLimit>, kept: map<string, ClientLimit>, p: Params,
                               id: string, at: nat)
    requires SameButStale(cleaned, kept, p, at) && p.window < STALE_AFTER && FilledIfStale(kept, p, id, at)
    ensures var e := Request(id, at);
            && Verdict(cleaned, p, id, at) == Verdict(kept, p, id, at)
            && SameButStale(Apply(cleaned, p, e), Apply(kept, p, e), p, at)
  {
    if id in kept && id !in cleaned {
      StaleActsFreshExactlyWhen(kept[id], p, at);
    }
    assert EntryFor(cleaned, id, p.burst, at) == EntryFor(kept, id, p.burst, at) || (id in kept && id !in cleaned);
    var a := CheckEntry(EntryFor(cleaned, id, p.burst, at), p, at);
    var b := CheckEntry(EntryFor(kept, id, p.burst, at), p, at);
    assert a == b;
    EntryKeepsBounds(EntryFor(kept, id, p.burst, at), p, at);
  }

  lemma EntryKeepsBounds(e: ClientLimit, p: Params, at: nat)
    requires e.windowStart <= e.lastRequest <= at && e.burstTokens <= p.burst
    ensures var f := CheckEntry(e, p, at).0;
            f.windowStart <= f.lastRequest == at && at <= f.windowStart + p.window && f.burstTokens <= p.burst
  {
  }

  lemma CleanupStaysSimulated(run: seq<Event>, p: Params, at: nat)
    requires Simulated(run, p, at)
    ensures Simulated(run + [Cleanup(at)], p, at)
  {
    Extend(run, p, Cleanup(at));
    assert WithoutCleanups(run) + [] == WithoutCleanups(run);
    CleanupKeepsSimulation(LimitsAfter(run, p), LimitsAfter(WithoutCleanups(run), p), p, at);
  }

  lemma CleanupKeepsSimulation(cleaned: map<string, ClientLimit>, kept: map<string, ClientLimit>, p: Params, at: nat)
    requires SameButStale(cleaned, kept, p, at)
    ensures SameButStale(Retained(cleaned, at), kept, p, at)
  {
  }

  lemma {:induction false} SimulationHolds(run: seq<Event>, p: Params, clock: nat)
    requires Timed(run) && BucketsFilled(run, p) && p.window < STALE_AFTER
    requires run != [] ==> Last(run).at <= clock
    ensures Simulated(run, p, clock)
    decreases |run|
  {
    if run != [] {
      var front, e := Front(run), Last(run);
      FrontIsTimed(run);
      SimulationHolds(front, p, e.at);
      EventStaysSimulated(front, p, e);
      LaterIsSimulated(run, p, e.at, clock);
    }
  }

  lemma FrontIsTimed(run: seq<Event>)
    requires run != [] && Timed(run)
    ensures run == Front(run) + [Last(run)] && Timed(Front(run))
            && (Front(run) != [] ==> Last(Front(run)).at <= Last(run).at)
  {
  }

  lemma EventStaysSimulated(run: seq<Event>, p: Params, e: Event)
    requires Simulated(run, p, e.at) && p.window < STALE_AFTER
    requires e.Request? ==> FilledIfStale(LimitsAfter(WithoutCleanups(run), p), p, e.id, e.at)
    ensures Simulated(run + [e], p, e.at)
  {
    match e
    case Request(id, at) => RequestStaysSimulated(run, p, id, at);
    case Cleanup(at) => CleanupStaysSimulated(run, p, at);
  }

  lemma LaterIsSimulated(run: seq<Event>, p: Params, at: nat, clock: nat)
    requires Simulated(run, p, at) && at <= clock
    ensures Simulated(run, p, clock)
  {
  }

  /** With a window under 120 s, cleaning up stale entries changes no answer in any run in which every request
      that would find its entry stale would find its bucket filled. */
  lemma {:induction false} CleanupIsUnobservable(run: seq<Event>, p: Params)
    requires Timed(run) && BucketsFilled(run, p) && p.window < STALE_AFTER
    ensures Decisions(run, p) == Decisions(WithoutCleanups(run), p)
  {
    if run != [] {
      SimulationHolds(run, p, Last(run).at);
    }
  }

  /** 120 s is the first window for which it may. */
  lemma CleanupIsUnobservableExactlyWhen(window: nat)
    ensures (forall run, max, burst: u32 ::
               Timed(run) && BucketsFilled(run, Params(max, burst, window)) ==>
                 Decisions(run, Params(max, burst, window))
                   == Decisions(WithoutCleanups(run), Params(max, burst, window)))
            <==> window < STALE_AFTER
  {
    if window < STALE_AFTER {
      forall run, max, burst: u32 | Timed(run) && BucketsFilled(run, Params(max, burst, window))
        ensures Decisions(run, Params(max, burst, window))
                == Decisions(WithoutCleanups(run), Params(max, burst, window))
      {
        CleanupIsUnobservable(run, Params(max, burst, window));
      }
    } else {
      EmptyBucketsFilled(Away(Params(1, 0, window), STALE_AFTER, 0), Params(1, 0, window));
      OpenWindowIsForgotten(Params(1, 0, window));
    }
  }

  lemma {:induction false} EmptyBucketsFilled(run: seq<Event>, p: Params)
    requires p.burst == 0
    ensures BucketsFilled(run, p)
    decreases |run|
  {
    if run != [] {
      EmptyBucketsFilled(Front(run), p);
    }
  }

  // ── In terms of how long clients stay away ───────────────────────

  /** When the client last asked. */
  function LastSeen(run: seq<Event>, id: string): Option<nat> {
    if run == [] then None
    else if Last(run).Request? && Last(run).id == id then Some(Last(run).at)
    else LastSeen(Front(run), id)
  }

  /** The client has not been away for so long that its refill overflows the 32-bit product. */
  predicate GapFits(run: seq<Event>, p: Params, id: string, at: nat) {
    LastSeen(run, id).Some? ==> Millis(Since(at, LastSeen(run, id).value)) * p.burst < U32_SPAN
  }

  ghost predicate GapsFit(run: seq<Event>, p: Params) {
    run == [] || (GapsFit(Front(run), p) && (Last(run).Request? ==> GapFits(Front(run), p, Last(run).id, Last(run).at)))
  }

  /** What the entries kept without cleanups know of the run. */
  ghost predicate Recorded(run: seq<Event>, kept: map<string, ClientLimit>, p: Params) {
    forall id | id in kept ::
      && LastSeen(run, id) == Some(kept[id].lastRequest)
      && kept[id].windowStart <= kept[id].lastRequest <= kept[id].windowStart + p.window
        && kept[id].burstTokens <= p.burst
      && run != [] && kept[id].lastRequest <= Last(run).at
  }

  lemma RequestIsRecorded(run: seq<Event>, kept: map<string, ClientLimit>, p: Params, id: string, at: nat)
    requires Recorded(run, kept, p) && (run != [] ==> Last(run).at <= at)
    ensures Recorded(run + [Request(id, at)], Apply(kept, p, Request(id, at)), p)
  {
    assert Front(run + [Request(id, at)]) == run;
  }

  lemma CleanupIsNotRecorded(run: seq<Event>, kept: map<string, ClientLimit>, p: Params, at: nat)
    requires Recorded(run, kept, p) && (run != [] ==> Last(run).at <= at)
    ensures Recorded(run + [Cleanup(at)], kept, p)
  {
    assert Front(run + [Cleanup(at)]) == run;
  }

  lemma {:induction false} RunIsRecorded(run: seq<Event>, p: Params)
    requires Timed(run)
    ensures Recorded(run, LimitsAfter(WithoutCleanups(run), p), p)
    decreases |run|
  {
    if run != [] {
      var front, e := Front(run), Last(run);
      FrontIsTimed(run);
      RunIsRecorded(front, p);
      var kept := LimitsAfter(WithoutCleanups(front), p);
      match e
      case Request(id, at) =>
        Extend(WithoutCleanups(front), p, e);
        RequestIsRecorded(front, kept, p, id, at);
      case Cleanup(at) => CleanupIsNotRecorded(front, kept, p, at);
    }
  }

  /** With a window of at most 119 s, buckets are filled when no client is away so long. */
  lemma {:induction false} ShortGapsFillBuckets(run: seq<Event>, p: Params)
    requires Timed(run) && GapsFit(run, p) && p.window <= STALE_AFTER - NANOS_PER_SEC
    ensures BucketsFilled(run, p)
    decreases |run|
  {
    if run != [] {
      var front, e := Front(run), Last(run);
      FrontIsTimed(run);
      ShortGapsFillBuckets(front, p);
      RunIsRecorded(front, p);
      var kept := LimitsAfter(WithoutCleanups(front), p);
      if e.Request? && e.id in kept && Stale(kept[e.id], e.at) {
        StaleIsFilled(kept[e.id], p, e.at);
      }
    }
  }

  /** With a window of at most 119 s, and no larger one, cleaning up changes no answer in any run in which no
      client is away long enough for its refill to overflow: some 24 hours with a burst of 50. */
  lemma ShortGapsHideCleanupsExactlyWhen(window: nat)
    ensures (forall run, max, burst: u32 ::
               Timed(run) && GapsFit(run, Params(max, burst, window)) ==>
                 Decisions(run, Params(max, burst, window))
                   == Decisions(WithoutCleanups(run), Params(max, burst, window)))
            <==> window <= STALE_AFTER - NANOS_PER_SEC
  {
    if window <= STALE_AFTER - NANOS_PER_SEC {
      forall run, max, burst: u32 | Timed(run) && GapsFit(run, Params(max, burst, window))
        ensures Decisions(run, Params(max, burst, window))
                == Decisions(WithoutCleanups(run), Params(max, burst, window))
      {
        ShortGapsFillBuckets(run, Params(max, burst, window));
        CleanupIsUnobservable(run, Params(max, burst, window));
      }
    } else {
      CleanupIsObservableBeyond119Seconds(window);
    }
  }

  /** Just over 119 s after the window opened: the bucket gets nothing back before the entry is stale. */
  const TOO_LATE: nat := STALE_AFTER - NANOS_PER_SEC + 1

  /** Two requests that empty the bucket, the second one still inside the first window. */
  function BucketEmptied(): seq<Event> { [Request("c", 0)] + [Request("c", TOO_LATE)] }

  function TwoMore(): seq<Event> { [Request("c", STALE_AFTER)] + [Request("c", STALE_AFTER)] }

  function ObservedRun(): seq<Event> { BucketEmptied() + [Cleanup(STALE_AFTER)] + TwoMore() }

  /** With any longer window, a cleanup admits a request that would have been refused. */
  lemma CleanupIsObservableBeyond119Seconds(window: nat)
    requires window > STALE_AFTER - NANOS_PER_SEC
    ensures var p := Params(1, 1, window);
            && Timed(ObservedRun()) && GapsFit(ObservedRun(), p)
            && Decisions(ObservedRun(), p) != Decisions(WithoutCleanups(ObservedRun()), p)
  {
    var p := Params(1, 1, window);
    assert Timed(ObservedRun());
    ShortRunsFit(ObservedRun(), p);
    CleanedRun(p);
    KeptRun(p);
    var before := Decisions(BucketEmptied(), p);
    var kept := Decisions(BucketEmptied() + TwoMore(), p);
    assert (before + [Allowed, Allowed])[|before| + 1] == Allowed != kept[|before| + 1];
  }

  lemma {:induction false} ShortRunsFit(run: seq<Event>, p: Params)
    requires p.burst == 1 && forall i :: 0 <= i < |run| ==> run[i].at <= STALE_AFTER
    ensures GapsFit(run, p)
    decreases |run|
  {
    if run != [] {
      ShortRunsFit(Front(run), p);
    }
  }

  lemma CleanedRun(p: Params)
    requires p.maxRequests == 1 && p.burst == 1 && p.window >= TOO_LATE
    ensures && Decisions(ObservedRun(), p) == Decisions(BucketEmptied(), p) + [Allowed, Allowed]
            && WithoutCleanups(ObservedRun()) == BucketEmptied() + TwoMore()
  {
    var c, d := Cleanup(STALE_AFTER), Request("c", STALE_AFTER);
    var prefix := BucketEmptied();
    PrefixState(p);
    CleanedAdmits(p);
    Extend(prefix, p, c);
    assert LimitsAfter(prefix + [c], p) == map[];
    Extend(prefix + [c], p, d);
    Extend(prefix + [c] + [d], p, d);
    assert ObservedRun() == prefix + [c] + [d] + [d];
    assert prefix + TwoMore() == prefix + [d] + [d];
  }

  lemma KeptRun(p: Params)
    requires p.maxRequests == 1 && p.burst == 1 && p.window >= TOO_LATE
    ensures var before, kept := Decisions(BucketEmptied(), p), Decisions(BucketEmptied() + TwoMore(), p);
            |kept| == |before| + 2 && kept[|before| + 1].Limited?
  {
    var d, prefix := Request("c", STALE_AFTER), BucketEmptied();
    PrefixState(p);
    KeptRefuses(p);
    Extend(prefix, p, d);
    Extend(prefix + [d], p, d);
    assert prefix + TwoMore() == prefix + [d] + [d];
  }

  lemma PrefixState(p: Params)
    requires p.maxRequests == 1 && p.burst == 1 && p.window >= TOO_LATE
    ensures LimitsAfter(BucketEmptied(), p) == map["c" := ClientLimit(2, 0, 0, TOO_LATE)]
    ensures |Decisions(BucketEmptied(), p)| == 2 && WithoutCleanups(BucketEmptied()) == BucketEmptied()
  {
    FirstRequestState(p);
    SecondRequestState(p);
    Extend([Request("c", 0)], p, Request("c", TOO_LATE));
  }

  lemma FirstRequestState(p: Params)
    requires p.maxRequests == 1 && p.burst == 1
    ensures var first := [Request("c", 0)];
            && LimitsAfter(first, p) == map["c" := ClientLimit(1, 0, 1, 0)]
            && |Decisions(first, p)| == 1 && WithoutCleanups(first) == first
  {
    Extend([], p, Request("c", 0));
    assert [] + [Request("c", 0)] == [Request("c", 0)];
  }

  lemma SecondRequestState(p: Params)
    requires p.maxRequests == 1 && p.burst == 1 && p.window >= TOO_LATE
    ensures Apply(map["c" := ClientLimit(1, 0, 1, 0)], p, Request("c", TOO_LATE))
            == map["c" := ClientLimit(2, 0, 0, TOO_LATE)]
  {
    assert CheckEntry(ClientLimit(1, 0, 1, 0), p, TOO_LATE).0 == ClientLimit(2, 0, 0, TOO_LATE);
  }

  /** The old entry allows at most one more request, whether or not its window has run out. */
  lemma KeptRefuses(p: Params)
    requires p.maxRequests == 1 && p.burst == 1 && p.window >= TOO_LATE
    ensures var e := CheckEntry(ClientLimit(2, 0, 0, TOO_LATE), p, STALE_AFTER).0;
            CheckEntry(e, p, STALE_AFTER).1.Limited?
  {
    assert Refill(STALE_AFTER - TOO_LATE, 1) == 0 && Refill(0, 1) == 0;
    var e := CheckEntry(ClientLimit(2, 0, 0, TOO_LATE), p, STALE_AFTER).0;
    assert e.burstTokens == 0 && e.count >= 1;
  }

  lemma CleanedAdmits(p: Params)
    requires p.maxRequests == 1 && p.burst == 1
    ensures var (e, first) := CheckEntry(NewClient(1, STALE_AFTER), p, STALE_AFTER);
            first == Allowed && CheckEntry(e, p, STALE_AFTER).1 == Allowed
  {
    assert CheckEntry(NewClient(1, STALE_AFTER), p, STALE_AFTER)
           == (ClientLimit(1, STALE_AFTER, 1, STALE_AFTER), Allowed);
  }

  /** How long the elapsed milliseconds take to wrap. */
  const WRAP: nat := U32_SPAN * NANOS_PER_MILLI

  function AtOnce(at: nat, n: nat): (r: seq<Event>)
    ensures |r| == n && forall i :: 0 <= i < n ==> r[i] == Request("c", at)
  {
    if n == 0 then [] else AtOnce(at, n - 1) + [Request("c", at)]
  }

  /** A client uses up its quota and its bucket, is refused, is cleaned up after, and comes back. */
  function Away(p: Params, until: nat, more: nat): seq<Event> {
    AtOnce(0, p.maxRequests + p.burst + 1) + [Cleanup(until)] + AtOnce(until, more + 1)
  }

  ghost predicate CleanupShows(run: seq<Event>, p: Params) {
    Timed(run) && Decisions(run, p) != Decisions(WithoutCleanups(run), p)
  }

  lemma OneAtOnce(run: seq<Event>, p: Params, at: nat, e: ClientLimit, next: ClientLimit, d: Decision)
    requires e == EntryFor(LimitsAfter(run, p), "c", p.burst, at) && (next, d) == CheckEntry(e, p, at)
    ensures var more := run + [Request("c", at)];
            LimitsAfter(more, p) == LimitsAfter(run, p)["c" := next] && Decisions(more, p) == Decisions(run, p) + [d]
  {
    Extend(run, p, Request("c", at));
  }

  lemma NextAfter(run: seq<Event>, p: Params, at: nat, limits: map<string, ClientLimit>, was: ClientLimit,
                  next: ClientLimit)
    requires LimitsAfter(run, p) == limits || LimitsAfter(run, p) == limits["c" := was]
    requires was == EntryFor(LimitsAfter(run, p), "c", p.burst, at) && next == CheckEntry(was, p, at).0
    ensures LimitsAfter(run + [Request("c", at)], p) == limits["c" := next]
  {
    OneAtOnce(run, p, at, was, next, CheckEntry(was, p, at).1);
  }

  lemma {:induction false} LimitsAtOnce(run: seq<Event>, more: seq<Event>, p: Params, at: nat, n: nat, e: ClientLimit)
    requires e == EntryFor(LimitsAfter(run, p), "c", p.burst, at) && more == run + AtOnce(at, n)
    ensures n == 0 ==> more == run
    ensures n > 0 ==> LimitsAfter(more, p) == LimitsAfter(run, p)["c" := Repeated(e, p, at, n)]
    ensures EntryFor(LimitsAfter(more, p), "c", p.burst, at) == Repeated(e, p, at, n)
    decreases n
  {
    if n == 0 {
      assert more == run;
    } else {
      var before := run + AtOnce(at, n - 1);
      LimitsAtOnce(run, before, p, at, n - 1, e);
      assert more == before + [Request("c", at)];
      NextAfter(before, p, at, LimitsAfter(run, p), Repeated(e, p, at, n - 1), Repeated(e, p, at, n));
    }
  }

  lemma LastAtOnce(run: seq<Event>, p: Params, at: nat, n: nat, e: ClientLimit)
    requires e == EntryFor(LimitsAfter(run, p), "c", p.burst, at)
    ensures var answers := Decisions(run + AtOnce(at, n + 1), p);
            answers != [] && answers[|answers| - 1] == AnswerAtOnce(e, p, at, n)
  {
    var before, was := run + AtOnce(at, n), Repeated(e, p, at, n);
    assert run + AtOnce(at, n + 1) == before + [Request("c", at)];
    LimitsAtOnce(run, before, p, at, n, e);
    OneAtOnce(before, p, at, was, CheckEntry(was, p, at).0, CheckEntry(was, p, at).1);
  }

  lemma {:induction false} RequestsStay(run: seq<Event>, more: seq<Event>)
    requires NoCleanup(more)
    ensures WithoutCleanups(run + more) == WithoutCleanups(run) + more
    decreases |more|
  {
    if more == [] {
      assert run + more == run && WithoutCleanups(run) + more == WithoutCleanups(run);
    } else {
      RequestsStay(run, Front(more));
      assert Front(run + more) == run + Front(more) && Last(run + more) == Last(more);
      assert more == Front(more) + [Last(more)];
    }
  }

  /** How the entry answers after `n` requests at the same instant. */
  function AnswerAtOnce(e: ClientLimit, p: Params, now: nat, n: nat): Decision {
    CheckEntry(Repeated(e, p, now, n), p, now).1
  }

  function Exhausted(p: Params): ClientLimit { ClientLimit(p.maxRequests + p.burst, 0, 0, 0) }

  lemma ExhaustedByRepeating(p: Params, n: nat)
    requires n == p.maxRequests + p.burst
    ensures Repeated(NewClient(p.burst, 0), p, 0, n + 1) == Exhausted(p)
  {
    if n > 0 {
      FreshRepeatedAllows(p, 0, n - 1);
      NextAtOnce(p, 0, n - 1, Left(p, p.burst, n - 1));
    }
    assert Repeated(NewClient(p.burst, 0), p, 0, n) == Exhausted(p);
    NextAtOnce(p, 0, n, 0);
  }

  lemma ExhaustedAfter(p: Params, run: seq<Event>, n: nat)
    requires n == p.maxRequests + p.burst && run == AtOnce(0, n + 1)
    ensures LimitsAfter(run, p) == map["c" := Exhausted(p)] && WithoutCleanups(run) == run
  {
    assert [] + run == run;
    ExhaustedByRepeating(p, n);
    LimitsAtOnce([], run, p, 0, n + 1, NewClient(p.burst, 0));
    RequestsStay([], run);
  }

  lemma AwayDiffers(p: Params, run: seq<Event>, start: seq<Event>, n: nat, until: nat, more: nat)
    requires n == p.maxRequests + p.burst && start == AtOnce(0, n + 1) && until >= STALE_AFTER
    requires run == start + [Cleanup(until)] + AtOnce(until, more + 1)
    requires AnswerAtOnce(Exhausted(p), p, until, more) != AnswerAtOnce(NewClient(p.burst, until), p, until, more)
    ensures Decisions(run, p) != Decisions(WithoutCleanups(run), p)
  {
    var cleaned := start + [Cleanup(until)];
    ExhaustedAfter(p, start, n);
    CleanedUp(p, start, cleaned, until);
    ReturnShows(p, start, cleaned, Exhausted(p), until, more);
  }

  /** If request number `more` is answered differently with the old entry, the cleanup shows. */
  lemma AwayShows(p: Params, until: nat, more: nat)
    requires until >= STALE_AFTER
    requires AnswerAtOnce(Exhausted(p), p, until, more) != AnswerAtOnce(NewClient(p.burst, until), p, until, more)
    ensures CleanupShows(Away(p, until, more), p)
  {
    var n := p.maxRequests + p.burst;
    AwayIsTimed(p, until, more);
    AwayDiffers(p, Away(p, until, more), AtOnce(0, n + 1), n, until, more);
  }

  lemma AwayIsTimed(p: Params, until: nat, more: nat)
    ensures Timed(Away(p, until, more))
  {
  }

  lemma ReturnShows(p: Params, start: seq<Event>, cleaned: seq<Event>, e: ClientLimit, until: nat, more: nat)
    requires LimitsAfter(start, p) == map["c" := e] && LimitsAfter(cleaned, p) == map[]
             && WithoutCleanups(cleaned) == start
    requires AnswerAtOnce(e, p, until, more) != AnswerAtOnce(NewClient(p.burst, until), p, until, more)
    ensures var run := cleaned + AtOnce(until, more + 1); Decisions(run, p) != Decisions(WithoutCleanups(run), p)
  {
    RequestsStay(cleaned, AtOnce(until, more + 1));
    LastAtOnce(cleaned, p, until, more, NewClient(p.burst, until));
    LastAtOnce(start, p, until, more, e);
  }

  lemma CleanedUp(p: Params, start: seq<Event>, cleaned: seq<Event>, until: nat)
    requires LimitsAfter(start, p) == map["c" := Exhausted(p)] && WithoutCleanups(start) == start
    requires cleaned == start + [Cleanup(until)] && until >= STALE_AFTER
    ensures LimitsAfter(cleaned, p) == map[] && WithoutCleanups(cleaned) == start
  {
    Extend(start, p, Cleanup(until));
    assert start + [] == start && Retained(map["c" := Exhausted(p)], until) == map[];
  }

  /** While its window has not run out and its bucket has got nothing back, the old entry is refused. */
  lemma StillRefused(p: Params, until: nat)
    requires until <= p.window && Replenished(0, until, p.burst) == 0
    ensures CheckEntry(Exhausted(p), p, until).1 == Limited(Max(Since(Secs(p.window), Secs(until)), 1))
  {
  }

  /** However large quota, bucket and window are, a client that stays away for 2^32 ms is told apart: with its
      old entry its refill has wrapped to nothing, and after a cleanup its bucket is full. */
  lemma LongAbsenceIsObservable(p: Params)
    requires p.burst > 0
    ensures exists more :: CleanupShows(Away(p, WRAP, more), p)
  {
    NothingAfterWrap(WRAP, p.burst);
    var more := if p.window < WRAP then p.maxRequests else 0;
    FreshRepeatedAllows(p, WRAP, more);
    if p.window < WRAP {
      RepeatedIs(Exhausted(p), p, WRAP, more, 0);
    } else {
      StillRefused(p, WRAP);
    }
    AwayShows(p, WRAP, more);
  }

  /** Without a bucket, a cleanup forgets a window that has not run out. */
  lemma OpenWindowIsForgotten(p: Params)
    requires p.burst == 0 && p.window >= STALE_AFTER
    ensures CleanupShows(Away(p, STALE_AFTER, 0), p)
  {
    NothingElapsed(0, 0);
    EmptyBucket(STALE_AFTER, 0);
    StillRefused(p, STALE_AFTER);
    assert Secs(p.window) >= Secs(STALE_AFTER) == 120;
    AwayShows(p, STALE_AFTER, 0);
  }

  /** Over all runs, however long clients stay away, cleaning up can never be observed exactly when there is no
      bucket and the window is under 120 s. */
  lemma NeverObservableExactlyWhen(p: Params)
    ensures (forall run :: Timed(run) ==> Decisions(run, p) == Decisions(WithoutCleanups(run), p))
            <==> p.burst == 0 && p.window < STALE_AFTER
  {
    if p.burst > 0 {
      LongAbsenceIsObservable(p);
    } else if p.window >= STALE_AFTER {
      OpenWindowIsForgotten(p);
    } else {
      forall run | Timed(run)
        ensures Decisions(run, p) == Decisions(WithoutCleanups(run), p)
      {
        EmptyBucketsFilled(run, p);
        CleanupIsUnobservable(run, p);
      }
    }
  }

  lemma NothingAfterWrap(at: nat, burst: u32)
    requires at == WRAP
    ensures Refill(at, burst) == 0 && Replenished(0, at, burst) == 0
  {
    assert Millis(at) == U32_SPAN;
  }

  /** One more event. */
  lemma Extend(run: seq<Event>, p: Params, e: Event)
    ensures LimitsAfter(run + [e], p) == Apply(LimitsAfter(run, p), p, e)
    ensures WithoutCleanups(run + [e]) == WithoutCleanups(run) + if e.Request? then [e] else []
    ensures Decisions(run + [e], p)
         == Decisions(run, p) + if e.Request? then [Verdict(LimitsAfter(run, p), p, e.id, e.at)] else []
  {
    assert Front(run + [e]) == run;
  }

  // ── Overflow under the cleanup schedule ──────────────────────────

  /** A cleanup has run in the minute before every event later than the first minute. */
  ghost predicate CleanedEveryMinute(run: seq<Event>) {
    forall i :: 0 <= i < |run| && run[i].at >= run[0].at + 60 * NANOS_PER_SEC ==>
      exists j :: 0 <= j < i && run[j].Cleanup? && run[i].at <= run[j].at + 60 * NANOS_PER_SEC
  }

  /** Every entry present after the cleanup at `c` opened its window less than 120 s before it. */
  lemma {:induction false} EntriesAreYoung(run: seq<Event>, p: Params, c: nat)
    requires Timed(run) && c < |run| && run[c].Cleanup?
    ensures forall id | id in LimitsAfter(run, p) ::
              LimitsAfter(run, p)[id].windowStart + STALE_AFTER > run[c].at
    decreases |run|
  {
    var front := Front(run);
    if c < |front| {
      EntriesAreYoung(front, p, c);
    }
  }

  lemma {:induction false} WindowsOpenWithinRun(run: seq<Event>, p: Params)
    requires Timed(run)
    ensures forall id | id in LimitsAfter(run, p) ::
              var e := LimitsAfter(run, p)[id]; run != [] && run[0].at <= e.windowStart <= e.lastRequest <= Last(run).at
    decreases |run|
  {
    if run != [] {
      WindowsOpenWithinRun(Front(run), p);
    }
  }

  /** With a cleanup at least every minute, a request finds its client last seen under 180 s ago, so a
      burst of up to 23861 can never overflow the refill product. */
  lemma {:induction false} ScheduledCleanupPreventsOverflow(run: seq<Event>, p: Params, id: string, at: nat)
    requires Timed(run + [Request(id, at)]) && CleanedEveryMinute(run + [Request(id, at)])
    requires id in LimitsAfter(run, p)
    ensures var elapsed := Since(at, LimitsAfter(run, p)[id].lastRequest);
            && elapsed < 180 * NANOS_PER_SEC
            && (p.burst <= 23861 ==> Millis(elapsed) * p.burst < U32_SPAN)
  {
    var all := run + [Request(id, at)];
    assert forall i :: 0 <= i < |run| ==> all[i] == run[i];
    assert all[|run|].at == at;
    WindowsOpenWithinRun(run, p);
    if at >= run[0].at + 60 * NANOS_PER_SEC {
      var j :| 0 <= j < |run| && all[j].Cleanup? && all[|run|].at <= all[j].at + 60 * NANOS_PER_SEC;
      EntriesAreYoung(run, p, j);
    }
    RefillFitsUnder180Seconds(Since(at, LimitsAfter(run, p)[id].lastRequest), p.burst);
  }

  lemma RefillFitsUnder180Seconds(elapsed: nat, burst: u32)
    requires elapsed < 180 * NANOS_PER_SEC
    ensures burst <= 23861 ==> Millis(elapsed) * burst < U32_SPAN
  {
    if burst <= 23861 {
      ProductMonotone(burst, Millis(elapsed), 179_999);
      ProductMonotone(179_999, burst, 23861);
    }
  }

  /** A run on that schedule with cleanups as late as they can be to miss the client. */
  function LatestCleanups(): seq<Event> {
    [Request("c", 0), Cleanup(60 * NANOS_PER_SEC - NANOS_PER_MILLI / 2),
     Cleanup(120 * NANOS_PER_SEC - NANOS_PER_MILLI / 2)]
  }

  const LATEST_REQUEST: nat := 180 * NANOS_PER_SEC - NANOS_PER_MILLI

  /** Every larger burst does overflow on it. */
  lemma LargerBurstOverflows(p: Params)
    requires p.burst >= 23862
    ensures var run := LatestCleanups();
            && Timed(run + [Request("c", LATEST_REQUEST)]) && CleanedEveryMinute(run + [Request("c", LATEST_REQUEST)])
            && "c" in LimitsAfter(run, p)
            && Millis(Since(LATEST_REQUEST, LimitsAfter(run, p)["c"].lastRequest)) * p.burst >= U32_SPAN
  {
    var run := LatestCleanups();
    LatestCleanupsMiss(p);
    var all := run + [Request("c", LATEST_REQUEST)];
    assert all[1].Cleanup? && all[2].Cleanup?;
    ProductMonotone(179_999, 23862, p.burst);
  }

  lemma LatestCleanupsMiss(p: Params)
    ensures "c" in LimitsAfter(LatestCleanups(), p) && LimitsAfter(LatestCleanups(), p)["c"].lastRequest == 0
  {
    var run := LatestCleanups();
    var a, b, c := run[0], run[1], run[2];
    assert Front([a, b, c]) == [a, b] && Front([a, b]) == [a] && Front([a]) == [];
    assert run == [a, b, c];
    assert "c" in LimitsAfter([a], p) && LimitsAfter([a], p)["c"].windowStart == 0;
    assert LimitsAfter([a], p)["c"].lastRequest == 0;
  }

  /** Over all runs on the schedule, the refill product fits exactly for bursts up to 23861. */
  lemma BurstFitsScheduleExactlyWhen(p: Params)
    ensures (forall run, id, at ::
               Timed(run + [Request(id, at)]) && CleanedEveryMinute(run + [Request(id, at)])
                 && id in LimitsAfter(run, p) ==>
                 Millis(Since(at, LimitsAfter(run, p)[id].lastRequest)) * p.burst < U32_SPAN)
            <==> p.burst <= 23861
  {
    if p.burst <= 23861 {
      forall run, id, at | Timed(run + [Request(id, at)]) && CleanedEveryMinute(run + [Request(id, at)])
        && id in LimitsAfter(run, p)
        ensures Millis(Since(at, LimitsAfter(run, p)[id].lastRequest)) * p.burst < U32_SPAN
      {
        ScheduledCleanupPreventsOverflow(run, p, id, at);
      }
    } else {
      LargerBurstOverflows(p);
    }
  }

  // ── The advertised retry time ────────────────────────────────────

  /** The refill over the wait yields a token at all, its 32-bit arithmetic included. */
  predicate TokenArrives(elapsed: nat, burst: u32) { Refill(elapsed, burst) > 0 }

  /** A refused client that waits the advertised time is admitted exactly when a token arrives, or its window
      has been exceeded and grants a quota. With a burst allowance one arrives, unless the wait is long
      enough for the refill to overflow. */
  lemma RetryAfterIsHonoured(e: ClientLimit, p: Params, now: nat, later: nat)
    requires CheckEntry(e, p, now).1.Limited?
    requires later >= now + CheckEntry(e, p, now).1.retryAfterSecs * NANOS_PER_SEC
    ensures var (e', refused) := CheckEntry(e, p, now);
            CheckEntry(e', p, later).1.Allowed? <==>
              TokenArrives(later - now, p.burst) || (p.maxRequests > 0 && later > e'.windowStart + p.window)
    ensures Millis(later - now) * p.burst < U32_SPAN ==> (TokenArrives(later - now, p.burst) <==> p.burst > 0)
  {
    RefusalEmpties(e, p, now);
    EmptiedAnswers(CheckEntry(e, p, now).0, p, now, later);
    if Millis(later - now) * p.burst < U32_SPAN {
      TokenArrivesExactlyWhen(later - now, p.burst);
    }
  }

  lemma TokenArrivesExactlyWhen(elapsed: nat, burst: u32)
    requires elapsed >= NANOS_PER_SEC && Millis(elapsed) * burst < U32_SPAN
    ensures TokenArrives(elapsed, burst) <==> burst > 0
  {
    FullRefill(elapsed, burst, elapsed);
    EmptyBucket(elapsed, burst);
  }

  lemma RefusalEmpties(e: ClientLimit, p: Params, now: nat)
    requires CheckEntry(e, p, now).1.Limited?
    ensures var (e', r) := CheckEntry(e, p, now);
            && e'.lastRequest == now && e'.burstTokens == 0 && e'.count >= p.maxRequests
            && r.retryAfterSecs >= 1
  {
  }

  lemma EmptiedAnswers(e: ClientLimit, p: Params, now: nat, later: nat)
    requires e.lastRequest == now && e.burstTokens == 0 && e.count >= p.maxRequests && later >= now
    ensures CheckEntry(e, p, later).1.Allowed? <==>
              TokenArrives(later - now, p.burst) || (p.maxRequests > 0 && later > e.windowStart + p.window)
  {
    EmptyBucket(later - now, p.burst);
  }

  lemma EmptyBucket(elapsed: nat, burst: u32)
    ensures Replenished(0, elapsed, burst) > 0 <==> Refill(elapsed, burst) > 0
  {
    if burst == 0 {
      assert Millis(elapsed) % U32_SPAN * burst == 0;
    }
  }

  /** With a burst allowance a client may be refused again after a wait of 2^32 ms. */
  lemma LongWaitIsRefused()
    ensures var p := Params(0, 1, NANOS_PER_SEC);
            var e := ClientLimit(0, 0, 0, 0);
            && CheckEntry(e, p, 0).1 == Limited(1)
            && CheckEntry(CheckEntry(e, p, 0).0, p, WRAP).1.Limited?
  {
    NothingAfterWrap(WRAP, 1);
  }

  /** Without one it may be refused again: the window must be exceeded, not merely reached. */
  lemma RetryAfterMayFallShort()
    ensures var p := Params(1, 0, NANOS_PER_SEC);
            var e := ClientLimit(1, 0, 0, 0);
            && CheckEntry(e, p, 0).1 == Limited(1)
            && CheckEntry(CheckEntry(e, p, 0).0, p, NANOS_PER_SEC).1.Limited?
  {
  }

  // ── The window, from the events alone ────────────────────────────

  /** When the client's current window opened: at the request of its that found none open, or only one that had
      run out. A cleanup 120 s later or more closes it. */
  function OpenedAt(run: seq<Event>, window: nat, id: string): Option<nat> {
    if run == [] then None
    else
      var before := OpenedAt(Front(run), window, id);
      match Last(run)
      case Request(who, at) => if who == id && (before.None? || at > before.value + window) then Some(at) else before
      case Cleanup(at) => if before.Some? && at >= before.value + 120 * NANOS_PER_SEC then None else before
  }

  /** How many requests of the client were admitted in it. */
  function AdmittedInWindow(run: seq<Event>, p: Params, id: string): nat {
    if run == [] then 0
    else
      var front, e := Front(run), Last(run);
      if !e.Request? || e.id != id then AdmittedInWindow(front, p, id)
      else
        (if OpenedAt(run, p.window, id) == OpenedAt(front, p.window, id) then AdmittedInWindow(front, p, id) else 0)
        + (if Verdict(LimitsAfter(front, p), p, id, e.at).Allowed? then 1 else 0)
  }

  /** The entry on record knows the window and what was admitted in it. */
  ghost predicate KnowsWindow(run: seq<Event>, p: Params, id: string) {
    var limits, start := LimitsAfter(run, p), OpenedAt(run, p.window, id);
    && (id in limits <==> start.Some?)
    && (id in limits ==>
          && run != [] && limits[id].windowStart == start.value <= Last(run).at
          && limits[id].count == AdmittedInWindow(run, p, id))
  }

  lemma {:induction false} WindowIsKnown(run: seq<Event>, p: Params, id: string)
    requires Timed(run)
    ensures KnowsWindow(run, p, id)
    decreases |run|
  {
    if run != [] {
      FrontIsTimed(run);
      WindowIsKnown(Front(run), p, id);
      match Last(run)
      case Request(who, at) =>
        if who == id {
          RequestKeepsWindow(Front(run), p, id, at, run);
        }
      case Cleanup(at) =>
    }
  }

  lemma RequestKeepsWindow(front: seq<Event>, p: Params, id: string, at: nat, run: seq<Event>)
    requires KnowsWindow(front, p, id) && run == front + [Request(id, at)] && (front != [] ==> Last(front).at <= at)
    ensures KnowsWindow(run, p, id)
  {
    assert Front(run) == front;
    var e := EntryFor(LimitsAfter(front, p), id, p.burst, at);
    var next := CheckEntry(e, p, at);
    EntryCounts(e, p, at);
    assert LimitsAfter(run, p)[id] == next.0;
  }

  lemma EntryCounts(e: ClientLimit, p: Params, now: nat)
    requires e.windowStart <= now
    ensures var (f, d) := CheckEntry(e, p, now);
            var expired := now > e.windowStart + p.window;
            && f.windowStart == (if expired then now else e.windowStart)
            && f.count == (if expired then 0 else e.count) + if d.Allowed? then 1 else 0
  {
  }

  /** A request is refused only once the window it falls in has used up the quota, whatever the bucket. */
  lemma QuotaIsGranted(run: seq<Event>, p: Params, id: string, at: nat)
    requires Timed(run + [Request(id, at)]) && Verdict(LimitsAfter(run, p), p, id, at).Limited?
    ensures AdmittedInWindow(run + [Request(id, at)], p, id) >= p.maxRequests
    ensures OpenedAt(run + [Request(id, at)], p.window, id).Some?
  {
    var more := run + [Request(id, at)];
    assert Front(more) == run && Last(more).at == at;
    assert run != [] ==> run[|run| - 1] == more[|run| - 1];
    FrontIsTimed(more);
    WindowIsKnown(run, p, id);
    RequestKeepsWindow(run, p, id, at, more);
    var e := EntryFor(LimitsAfter(run, p), id, p.burst, at);
    RefusalSaysWhen(e, p, at);
    assert LimitsAfter(more, p)[id] == CheckEntry(e, p, at).0;
  }

  lemma RefusalSaysWhen(e: ClientLimit, p: Params, now: nat)
    requires e.windowStart <= now && CheckEntry(e, p, now).1.Limited?
    ensures var (f, d) := CheckEntry(e, p, now);
            && f.count >= p.maxRequests && f.windowStart <= now <= f.windowStart + p.window
            && d.retryAfterSecs >= 1
            && (d.retryAfterSecs > 1 ==> d.retryAfterSecs == Secs(p.window) - Secs(now - f.windowStart))
            && (d.retryAfterSecs == 1 ==> Secs(p.window) - Secs(now - f.windowStart) <= 1)
  {
  }

  /** After a refusal the advertised time is over within a second of the end of the window, counted from the event
      that opened it; for a window of whole seconds never before that end, and less than a second after it unless
      the floor of one second applies. */
  lemma RetryAfterMeetsTheWindow(run: seq<Event>, p: Params, id: string, now: nat)
    requires Timed(run + [Request(id, now)]) && Verdict(LimitsAfter(run, p), p, id, now).Limited?
    ensures var start := OpenedAt(run + [Request(id, now)], p.window, id);
            var retry := Verdict(LimitsAfter(run, p), p, id, now).retryAfterSecs;
            && start.Some? && start.value <= now <= start.value + p.window
            && var end, told := start.value + p.window, now + retry * NANOS_PER_SEC;
               && retry >= 1
               && end - NANOS_PER_SEC < told <= end + NANOS_PER_SEC
               && (retry > 1 ==> told < end + NANOS_PER_SEC)
               && (p.window % NANOS_PER_SEC == 0 ==> end <= told)
  {
    var more := run + [Request(id, now)];
    assert Front(more) == run && Last(more).at == now;
    assert run != [] ==> run[|run| - 1] == more[|run| - 1];
    FrontIsTimed(more);
    WindowIsKnown(run, p, id);
    RequestKeepsWindow(run, p, id, now, more);
    var e := EntryFor(LimitsAfter(run, p), id, p.burst, now);
    RefusalSaysWhen(e, p, now);
    var (f, d) := CheckEntry(e, p, now);
    assert LimitsAfter(more, p)[id] == f;
    SecondsLeft(p.window, now - f.windowStart, d.retryAfterSecs);
  }

  lemma SecondsLeft(window: nat, elapsed: nat, retry: nat)
    requires elapsed <= window && retry >= 1
    requires retry > 1 ==> retry == Secs(window) - Secs(elapsed)
    requires retry == 1 ==> Secs(window) - Secs(elapsed) <= 1
    ensures var told := elapsed + retry * NANOS_PER_SEC;
            && window - NANOS_PER_SEC < told <= window + NANOS_PER_SEC
            && (retry > 1 ==> told < window + NANOS_PER_SEC)
            && (window % NANOS_PER_SEC == 0 ==> window <= told)
  {
  }
}
