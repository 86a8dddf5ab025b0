/** Per-node health and load-balanced selection in the gateway (gateway/src/node_health.rs). Latencies and
    scores are real numbers; instants are nanoseconds. */
module NodeHealth {

  import opened Common
  import opened StableSort
  import CB = CircuitBreakers

  const USIZE_SPAN: nat := 0x1_0000_0000_0000_0000

  type Url = string

  datatype Strategy = Sequential | RoundRobin | LeastLatency | Weighted

  /** A latency of zero means that none is known. */
  datatype Node = Node(avgLatency: real, lastSuccess: Option<nat>, breaker: CB.Breaker)

  const NEW_NODE := Node(0.0, None, CB.FRESH)

  function Averaged(average: real, sample: real): real {
    if average == 0.0 then sample else average * 0.9 + sample * 0.1
  }

  function Succeeded(n: Node, latency: real, now: nat): Node {
    Node(Averaged(n.avgLatency, latency), Some(now), CB.Succeed(n.breaker))
  }

  function FailedNode(n: Node, cfg: CB.Config, now: nat): Node { n.(breaker := CB.Fail(n.breaker, cfg, now)) }

  function LatencyScore(latency: real): real {
    if latency > 0.0 then 1000.0 / (1000.0 + latency) else 0.5
  }

  function Seconds(since: nat, now: nat): real {
    if since <= now then (now - since) as real / 1000000000.0 else 0.0
  }

  function RecencyScore(lastSuccess: Option<nat>, now: nat): real {
    match lastSuccess
    case Some(t) => 1.0 / (1.0 + Seconds(t, now) / 60.0)
    case None => 0.3
  }

  function Score(n: Node, cfg: CB.Config, now: nat): real {
    if !CB.Allow(n.breaker, cfg, now).1 then 0.0
    else LatencyScore(n.avgLatency) * 0.7 + RecencyScore(n.lastSuccess, now) * 0.3
  }

  // ── Selection ────────────────────────────────────────────────────

  type Nodes = map<Url, Node>

  predicate Admitted(nodes: Nodes, cfg: CB.Config, now: nat, url: Url) {
    url in nodes ==> CB.Allow(nodes[url].breaker, cfg, now).1
  }

  function Available(urls: seq<Url>, nodes: Nodes, cfg: CB.Config, now: nat): seq<Url> {
    if urls == [] then []
    else
      var last := urls[|urls| - 1];
      Available(urls[..|urls| - 1], nodes, cfg, now) + if Admitted(nodes, cfg, now, last) then [last] else []
  }

  function Listed(urls: seq<Url>): set<Url> { set u | u in urls }

  /** Every configured node has an entry. */
  function Ensured(nodes: Nodes, urls: seq<Url>): Nodes {
    map u | u in nodes.Keys + Listed(urls) :: if u in nodes then nodes[u] else NEW_NODE
  }

  function Asked(n: Node, cfg: CB.Config, now: nat): Node { n.(breaker := CB.Allow(n.breaker, cfg, now).0) }

  /** Asking a breaker may move it to half-open. */
  function AllAsked(nodes: Nodes, urls: seq<Url>, cfg: CB.Config, now: nat): Nodes {
    map u | u in nodes :: if u in urls then Asked(nodes[u], cfg, now) else nodes[u]
  }

  function Latency(nodes: Nodes, url: Url): real { if url in nodes then nodes[url].avgLatency else 0.0 }

  function Weight(nodes: Nodes, cfg: CB.Config, now: nat, url: Url): real {
    if url in nodes then Score(nodes[url], cfg, now) else 0.5
  }

  /** Lower latency first, unknown latency last. */
  function ByLatency(nodes: Nodes): Order<Url> {
    (a, b) =>
      var x, y := Latency(nodes, a), Latency(nodes, b);
      if x == 0.0 || y == 0.0 then x != 0.0 && y == 0.0 else x < y
  }

  function ByWeight(nodes: Nodes, cfg: CB.Config, now: nat): Order<Url> {
    (a, b) => Weight(nodes, cfg, now, a) > Weight(nodes, cfg, now, b)
  }

  function Rotated<T>(xs: seq<T>, start: nat): seq<T>
    requires xs != []
  {
    seq(|xs|, i requires 0 <= i < |xs| => xs[(start + i) % |xs|])
  }

  function Select(strategy: Strategy, urls: seq<Url>, nodes: Nodes, cfg: CB.Config, counter: nat, now: nat): seq<Url> {
    var available := Available(urls, nodes, cfg, now);
    match strategy
    case Sequential => available
    case RoundRobin => if available == [] then [] else Rotated(available, counter % |available|)
    case LeastLatency => Sort(available, ByLatency(nodes))
    case Weighted => Sort(available, ByWeight(nodes, cfg, now))
  }

  function NextCounter(strategy: Strategy, available: seq<Url>, counter: nat): nat {
    if strategy.RoundRobin? && available != [] then (counter + 1) % USIZE_SPAN else counter
  }

  lemma AskedTwice(n: Node, cfg: CB.Config, now: nat)
    ensures Asked(Asked(n, cfg, now), cfg, now) == Asked(n, cfg, now)
    ensures CB.Allow(Asked(n, cfg, now).breaker, cfg, now).1 == CB.Allow(n.breaker, cfg, now).1
    ensures Asked(n, cfg, now).avgLatency == n.avgLatency && Asked(n, cfg, now).lastSuccess == n.lastSuccess
  {
  }

  lemma OneMoreUrl(urls: seq<Url>, i: nat, nodes: Nodes, cfg: CB.Config, now: nat)
    requires i < |urls|
    ensures var u := urls[i];
            && Available(urls[..i + 1], nodes, cfg, now)
                 == Available(urls[..i], nodes, cfg, now) + (if Admitted(nodes, cfg, now, u) then [u] else [])
            && AllAsked(nodes, urls[..i + 1], cfg, now)
                 == var m := AllAsked(nodes, urls[..i], cfg, now);
                    if u in nodes then m[u := Asked(nodes[u], cfg, now)] else m
  {
    assert urls[..i + 1] == urls[..i] + [urls[i]] && urls[..i + 1][..i] == urls[..i];
  }

  class Tracker {
    const urls: seq<Url>
    const strategy: Strategy
    const cfg: CB.Config
    var nodes: Nodes
    var roundRobin: nat

    constructor (urls: seq<Url>, strategy: Strategy, cfg: CB.Config)
      ensures this.urls == urls && this.strategy == strategy && this.cfg == cfg && nodes == map[] && roundRobin == 0
    {
      this.urls, this.strategy, this.cfg := urls, strategy, cfg;
      nodes, roundRobin := map[], 0;
    }

    method EnsureNodes()
      modifies this`nodes
      ensures nodes == Ensured(old(nodes), urls)
    {
      for i := 0 to |urls|
        invariant nodes == Ensured(old(nodes), urls[..i])
      {
        assert Listed(urls[..i + 1]) == Listed(urls[..i]) + {urls[i]};
        if urls[i] !in nodes {
          nodes := nodes[urls[i] := NEW_NODE];
        }
      }
      assert urls[..|urls|] == urls;
    }

    /** Asks each node in turn; a node listed twice is asked twice. */
    method AvailableUrls(now: nat) returns (available: seq<Url>)
      modifies this`nodes
      ensures nodes == AllAsked(old(nodes), urls, cfg, now)
      ensures available == Available(urls, old(nodes), cfg, now)
    {
      available := [];
      for i := 0 to |urls|
        invariant nodes == AllAsked(old(nodes), urls[..i], cfg, now)
        invariant available == Available(urls[..i], old(nodes), cfg, now)
      {
        var u := urls[i];
        OneMoreUrl(urls, i, old(nodes), cfg, now);
        var admitted := true;
        if u in nodes {
          AskedTwice(old(nodes)[u], cfg, now);
          var (breaker, allowed) := CB.Allow(nodes[u].breaker, cfg, now);
          nodes := nodes[u := nodes[u].(breaker := breaker)];
          admitted := allowed;
        }
        if admitted {
          available := available + [u];
        }
      }
      assert urls[..|urls|] == urls;
    }

    method SelectNodes(now: nat) returns (selected: seq<Url>)
      requires roundRobin < USIZE_SPAN
      modifies this
      ensures selected == Select(strategy, urls, Ensured(old(nodes), urls), cfg, old(roundRobin), now)
      ensures nodes == AllAsked(Ensured(old(nodes), urls), urls, cfg, now)
      ensures var available := Available(urls, Ensured(old(nodes), urls), cfg, now);
              roundRobin == NextCounter(strategy, available, old(roundRobin)) < USIZE_SPAN
    {
      EnsureNodes();
      ghost var before := nodes;
      var available := AvailableUrls(now);
      match strategy
      case Sequential => return available;
      case RoundRobin =>
        if available == [] {
          return [];
        }
        var idx := roundRobin % |available|;
        roundRobin := (roundRobin + 1) % USIZE_SPAN;
        selected := [];
        for i := 0 to |available|
          invariant |selected| == i
          invariant forall j :: 0 <= j < i ==> selected[j] == available[(idx + j) % |available|]
        {
          selected := selected + [available[(idx + i) % |available|]];
        }
        assert selected == Rotated(available, idx);
      case LeastLatency =>
        SameKeys(before, urls, cfg, now);
        selected := Sort(available, ByLatency(nodes));
        SortRespects(available, ByLatency(nodes), ByLatency(before));
      case Weighted =>
        SameKeys(before, urls, cfg, now);
        selected := Sort(available, ByWeight(nodes, cfg, now));
        SortRespects(available, ByWeight(nodes, cfg, now), ByWeight(before, cfg, now));
    }

    method RecordSuccess(url: Url, latency: real, now: nat)
      modifies this`nodes
      ensures nodes == var n := Ensured(old(nodes), urls);
                       if url in n then n[url := Succeeded(n[url], latency, now)] else n
    {
      EnsureNodes();
      if url in nodes {
        nodes := nodes[url := Succeeded(nodes[url], latency, now)];
      }
    }

    method RecordFailure(url: Url, now: nat)
      modifies this`nodes
      ensures nodes == var n := Ensured(old(nodes), urls);
                       if url in n then n[url := FailedNode(n[url], cfg, now)] else n
    {
      EnsureNodes();
      if url in nodes {
        nodes := nodes[url := FailedNode(nodes[url], cfg, now)];
      }
    }
  }

  lemma SameKeys(nodes: Nodes, urls: seq<Url>, cfg: CB.Config, now: nat)
    ensures var after := AllAsked(nodes, urls, cfg, now);
            forall u :: Latency(after, u) == Latency(nodes, u)
              && Weight(after, cfg, now, u) == Weight(nodes, cfg, now, u)
  {
  }

  lemma {:induction false} SortRespects<T(!new)>(xs: seq<T>, a: Order<T>, b: Order<T>)
    requires forall x, y :: a(x, y) == b(x, y)
    ensures Sort(xs, a) == Sort(xs, b)
  {
    if xs != [] {
      SortRespects(xs[..|xs| - 1], a, b);
      InsertRespects(Sort(xs[..|xs| - 1], a), xs[|xs| - 1], a, b);
    }
  }

  lemma {:induction false} InsertRespects<T(!new)>(xs: seq<T>, x: T, a: Order<T>, b: Order<T>)
    requires forall y, z :: a(y, z) == b(y, z)
    ensures Insert(xs, x, a) == Insert(xs, x, b)
  {
    if xs != [] {
      InsertRespects(xs[..|xs| - 1], x, a, b);
    }
  }

  // ── What a selection is ──────────────────────────────────────────

  lemma {:induction false} AvailableHolds(urls: seq<Url>, nodes: Nodes, cfg: CB.Config, now: nat, u: Url)
    ensures multiset(Available(urls, nodes, cfg, now))[u]
         == if Admitted(nodes, cfg, now, u) then multiset(urls)[u] else 0
  {
    if urls != [] {
      var front, last := urls[..|urls| - 1], urls[|urls| - 1];
      AvailableHolds(front, nodes, cfg, now, u);
      assert urls == front + [last];
      CountAppended(front, last, u);
      CountAppended(Available(front, nodes, cfg, now), last, u);
      assert Available(front, nodes, cfg, now) + [] == Available(front, nodes, cfg, now);
    }
  }

  lemma CountAppended<T>(xs: seq<T>, x: T, u: T)
    ensures multiset(xs + [x])[u] == multiset(xs)[u] + if u == x then 1 else 0
  {
  }

  lemma LatencyIsWeakOrder(nodes: Nodes)
    ensures WeakOrder(ByLatency(nodes))
  {
  }

  lemma WeightIsWeakOrder(nodes: Nodes, cfg: CB.Config, now: nat)
    ensures WeakOrder(ByWeight(nodes, cfg, now))
  {
  }

  lemma RotationKeepsElements<T>(xs: seq<T>, start: nat)
    requires xs != [] && start < |xs|
    ensures Rotated(xs, start) == xs[start..] + xs[..start]
    ensures multiset(Rotated(xs, start)) == multiset(xs)
  {
    var r := Rotated(xs, start);
    forall i | 0 <= i < |xs|
      ensures r[i] == (xs[start..] + xs[..start])[i]
    {
      if start + i >= |xs| {
        RemainderIs(start + i, |xs|, 1, start + i - |xs|);
      } else {
        RemainderIs(start + i, |xs|, 0, start + i);
      }
    }
    assert r == xs[start..] + xs[..start];
    assert xs == xs[..start] + xs[start..];
  }

  lemma SelectionArranges(strategy: Strategy, urls: seq<Url>, nodes: Nodes, cfg: CB.Config, counter: nat, now: nat)
    ensures multiset(Select(strategy, urls, nodes, cfg, counter, now)) == multiset(Available(urls, nodes, cfg, now))
  {
    var available := Available(urls, nodes, cfg, now);
    match strategy
    case Sequential =>
    case RoundRobin =>
      if available != [] {
        RotationKeepsElements(available, counter % |available|);
      }
    case LeastLatency =>
      LatencyIsWeakOrder(nodes);
      SortSorts(available, ByLatency(nodes));
    case Weighted =>
      WeightIsWeakOrder(nodes, cfg, now);
      SortSorts(available, ByWeight(nodes, cfg, now));
  }

  /** Every strategy returns exactly the configured nodes whose breakers admit, each as often as configured. */
  lemma SelectionHoldsTheAdmitted(strategy: Strategy, urls: seq<Url>, nodes: Nodes, cfg: CB.Config, counter: nat,
                                  now: nat, u: Url)
    ensures multiset(Select(strategy, urls, nodes, cfg, counter, now))[u] ==
              if Admitted(nodes, cfg, now, u) then multiset(urls)[u] else 0
  {
    SelectionArranges(strategy, urls, nodes, cfg, counter, now);
    AvailableHolds(urls, nodes, cfg, now, u);
  }

  /** By latency: nodes of known latency come first, fastest first; nodes that tie keep the configured order. */
  lemma {:induction false} LatencyOrder(urls: seq<Url>, nodes: Nodes, cfg: CB.Config, counter: nat, now: nat)
    ensures var r := Select(LeastLatency, urls, nodes, cfg, counter, now);
            && (forall i, j :: 0 <= i < j < |r| && Latency(nodes, r[j]) != 0.0 ==>
                  0.0 != Latency(nodes, r[i]) <= Latency(nodes, r[j]))
            && (forall u ::
                  TiedWith(r, u, ByLatency(nodes)) == TiedWith(Available(urls, nodes, cfg, now), u, ByLatency(nodes)))
  {
    LatencyIsWeakOrder(nodes);
    SortSorts(Available(urls, nodes, cfg, now), ByLatency(nodes));
    var r := Select(LeastLatency, urls, nodes, cfg, counter, now);
    forall i, j | 0 <= i < j < |r| && Latency(nodes, r[j]) != 0.0
      ensures 0.0 != Latency(nodes, r[i]) <= Latency(nodes, r[j])
    {
      assert !ByLatency(nodes)(r[j], r[i]);
    }
  }

  /** By weight: highest score first; nodes that tie keep the configured order. */
  lemma WeightOrder(urls: seq<Url>, nodes: Nodes, cfg: CB.Config, counter: nat, now: nat)
    ensures var r := Select(Weighted, urls, nodes, cfg, counter, now);
            && (forall i, j :: 0 <= i < j < |r| ==> Weight(nodes, cfg, now, r[i]) >= Weight(nodes, cfg, now, r[j]))
            && (forall u :: TiedWith(r, u, ByWeight(nodes, cfg, now))
                         == TiedWith(Available(urls, nodes, cfg, now), u, ByWeight(nodes, cfg, now)))
  {
    WeightIsWeakOrder(nodes, cfg, now);
    SortSorts(Available(urls, nodes, cfg, now), ByWeight(nodes, cfg, now));
    var r := Select(Weighted, urls, nodes, cfg, counter, now);
    forall i, j | 0 <= i < j < |r|
      ensures Weight(nodes, cfg, now, r[i]) >= Weight(nodes, cfg, now, r[j])
    {
      assert !ByWeight(nodes, cfg, now)(r[j], r[i]);
    }
  }

  // ── Rotation ─────────────────────────────────────────────────────

  /** The position, among `n` available nodes, of the one that comes first in the `k`-th next call, when
      the counter wraps at `span`. */
  function FirstPick(span: nat, counter: nat, n: nat, k: nat): nat
    requires n > 0 && span > 0
  {
    ((counter + k) % span) % n
  }

  lemma RotatedFirst<T>(xs: seq<T>, start: nat)
    requires start < |xs|
    ensures Rotated(xs, start)[0] == xs[start]
  {
    RemainderIs(start, |xs|, 0, start);
  }

  ghost predicate NoneFirstTwice(span: nat, counter: nat, n: nat)
    requires n > 0 && span > 0
  {
    forall i, j | 0 <= i < j < n :: FirstPick(span, counter, n, i) != FirstPick(span, counter, n, j)
  }

  lemma MultipleIsLarge(k: int, n: nat)
    requires k >= 1
    ensures k * n >= n
  {
  }

  lemma RemainderIs(a: nat, n: nat, q: int, r: nat)
    requires r < n && a == r + q * n
    ensures a % n == r
  {
    var p, t := a / n, a % n;
    assert a == t + p * n;
    assert t - r == (q - p) * n;
    if q > p {
      MultipleIsLarge(q - p, n);
    } else if q < p {
      MultipleIsLarge(p - q, n);
    }
  }

  /** Numbers less than `n` apart have different remainders. */
  lemma CloseNumbersDiffer(a: nat, b: nat, n: nat)
    requires a < b < a + n
    ensures a % n != b % n
  {
    var p, q := a / n, b / n;
    assert a == p * n + a % n && b == q * n + b % n;
    assert b - a == (q - p) * n + (b % n - a % n);
    if a % n == b % n && q > p {
      MultipleIsLarge(q - p, n);
    } else if a % n == b % n && q < p {
      MultipleIsLarge(p - q, n);
    }
  }

  /** Picks before the wrap, after it, and across a wrap that does no harm. */
  lemma PickIs(span: nat, counter: nat, n: nat, k: nat)
    requires 0 < n <= span && counter < span && k < n
    ensures counter + k < span ==> FirstPick(span, counter, n, k) == (counter + k) % n
    ensures counter + k >= span ==> FirstPick(span, counter, n, k) == counter + k - span
    ensures span % n == 0 ==> FirstPick(span, counter, n, k) == (counter + k) % n
  {
    if counter + k < span {
      RemainderIs(counter + k, span, 0, counter + k);
    } else {
      var late := counter + k - span;
      RemainderIs(counter + k, span, 1, late);
      RemainderIs(late, n, 0, late);
      if span % n == 0 {
        assert span == (span / n) * n;
        RemainderIs(counter + k, n, span / n, late);
      }
    }
  }

  lemma FairWithoutHarmfulWrap(span: nat, counter: nat, n: nat)
    requires 0 < n <= span && counter < span
    requires counter + n <= span || span % n == 0
    ensures NoneFirstTwice(span, counter, n)
  {
    forall i, j | 0 <= i < j < n
      ensures FirstPick(span, counter, n, i) != FirstPick(span, counter, n, j)
    {
      CloseNumbersDiffer(counter + i, counter + j, n);
      PickIs(span, counter, n, i);
      PickIs(span, counter, n, j);
    }
  }

  /** A pick before the wrap and one after it that meet. */
  lemma SamePick(span: nat, counter: nat, n: nat, i: nat, j: nat, q: nat)
    requires 0 < n <= span && counter < span && i < j < n
    requires counter + i < span <= counter + j && counter + i == (counter + j - span) + q * n
    ensures !NoneFirstTwice(span, counter, n)
  {
    PickIs(span, counter, n, i);
    PickIs(span, counter, n, j);
    RemainderIs(counter + i, n, q, counter + j - span);
    assert FirstPick(span, counter, n, i) == FirstPick(span, counter, n, j);
  }

  lemma UnfairWhenWrapping(span: nat, counter: nat, n: nat)
    requires 0 < n <= span && counter < span && counter + n > span && span % n != 0
    ensures !NoneFirstTwice(span, counter, n)
  {
    var k, q, r := span - counter, span / n, span % n;
    assert span == r + q * n;
    // `k` picks before the wrap, the last one of remainder r - 1; then remainders 0, 1, …
    if r <= n - k {
      SamePick(span, counter, n, k - 1, k + r - 1, q);
    } else if r <= k {
      SamePick(span, counter, n, k - r, k, q);
    } else {
      SamePick(span, counter, n, 0, r, q);
    }
  }

  /** The picks of `n` calls differ exactly when the counter does not wrap in between or `n` divides its range. */
  lemma PicksDifferExactlyWhen(counter: nat, n: nat)
    requires 0 < n <= USIZE_SPAN && counter < USIZE_SPAN
    ensures NoneFirstTwice(USIZE_SPAN, counter, n) <==> counter + n <= USIZE_SPAN || USIZE_SPAN % n == 0
  {
    if counter + n <= USIZE_SPAN || USIZE_SPAN % n == 0 {
      FairWithoutHarmfulWrap(USIZE_SPAN, counter, n);
    } else {
      UnfairWhenWrapping(USIZE_SPAN, counter, n);
    }
  }

  /** Each position is then picked. */
  lemma EachIsPicked(span: nat, counter: nat, n: nat, position: nat)
    requires 0 < n <= span && counter < span && position < n
    requires counter + n <= span || span % n == 0
    ensures exists k: nat :: k < n && FirstPick(span, counter, n, k) == position
  {
    var q, r := counter / n, counter % n;
    assert counter == r + q * n;
    var k := if r <= position then position - r else n - r + position;
    if r <= position {
      RemainderIs(counter + k, n, q, position);
    } else {
      assert (q + 1) * n == q * n + n;
      RemainderIs(counter + k, n, q + 1, position);
    }
    PickIs(span, counter, n, k);
  }

  // ── Averages and scores ──────────────────────────────────────────

  function AverageOf(samples: seq<real>): real {
    if samples == [] then 0.0 else Averaged(AverageOf(samples[..|samples| - 1]), samples[|samples| - 1])
  }

  /** The average lies within the range of its samples. */
  lemma {:induction false} AverageStaysInRange(samples: seq<real>, lo: real, hi: real)
    requires samples != [] && forall i :: 0 <= i < |samples| ==> lo <= samples[i] <= hi
    ensures lo <= AverageOf(samples) <= hi
    decreases |samples|
  {
    if |samples| > 1 {
      AverageStaysInRange(samples[..|samples| - 1], lo, hi);
    }
  }

  /** It counts as unknown exactly when every sample was zero. */
  lemma {:induction false} UnknownExactlyWhen(samples: seq<real>)
    requires forall i :: 0 <= i < |samples| ==> samples[i] >= 0.0
    ensures AverageOf(samples) >= 0.0
    ensures AverageOf(samples) == 0.0 <==> forall i :: 0 <= i < |samples| ==> samples[i] == 0.0
    decreases |samples|
  {
    if samples != [] {
      var front := samples[..|samples| - 1];
      UnknownExactlyWhen(front);
      assert forall i :: 0 <= i < |front| ==> front[i] == samples[i];
      assert samples[|samples| - 1] >= 0.0;
    }
  }

  lemma InverseShrinks(c: real, a: real, b: real)
    requires 0.0 < c <= a <= b
    ensures 0.0 < c / b <= c / a <= 1.0
  {
    var x, y := c / a, c / b;
    assert x * a == c && y * b == c;
    assert (x - y) * a == y * (b - a);
    QuotientSign(x - y, a);
    QuotientSign(y, b);
    QuotientSign(1.0 - x, a);
  }

  lemma QuotientSign(x: real, a: real)
    requires a > 0.0
    ensures x * a >= 0.0 ==> x >= 0.0
    ensures x * a > 0.0 ==> x > 0.0
  {
  }

  /** The latency a node is scored for: an unknown one counts as a second. */
  function ScoredLatency(n: Node): real { if n.avgLatency > 0.0 then n.avgLatency else 1000.0 }

  /** The time since the last success it is scored for: none at all counts as 140 s. */
  function ScoredIdleness(n: Node, now: nat): real {
    match n.lastSuccess
    case Some(t) => if now >= t then (now - t) as real / 1000000000.0 else 0.0
    case None => 140.0
  }

  lemma ScoreParts(n: Node, cfg: CB.Config, now: nat)
    ensures LatencyScore(n.avgLatency) == 1000.0 / (1000.0 + ScoredLatency(n))
    ensures RecencyScore(n.lastSuccess, now) == 1.0 / (1.0 + ScoredIdleness(n, now) / 60.0)
    ensures 0.0 < LatencyScore(n.avgLatency) <= 1.0 && 0.0 < RecencyScore(n.lastSuccess, now) <= 1.0
  {
    var a, b := 1000.0 + ScoredLatency(n), 1.0 + ScoredIdleness(n, now) / 60.0;
    InverseShrinks(1000.0, a, a);
    InverseShrinks(1.0, b, b);
  }

  /** Every score lies between zero and one, and is zero exactly for a node that is refused. */
  lemma ScoreRange(n: Node, cfg: CB.Config, now: nat)
    ensures 0.0 <= Score(n, cfg, now) <= 1.0
    ensures Score(n, cfg, now) == 0.0 <==> !CB.Allow(n.breaker, cfg, now).1
  {
    ScoreParts(n, cfg, now);
  }

  /** A node that is no slower, no longer idle and no less admitted never scores lower. */
  lemma ScoreIsMonotone(n: Node, m: Node, cfg: CB.Config, now: nat)
    requires CB.Allow(m.breaker, cfg, now).1 ==> CB.Allow(n.breaker, cfg, now).1
    requires ScoredLatency(n) <= ScoredLatency(m) && ScoredIdleness(n, now) <= ScoredIdleness(m, now)
    ensures Score(m, cfg, now) <= Score(n, cfg, now)
  {
    ScoreParts(n, cfg, now);
    ScoreParts(m, cfg, now);
    InverseShrinks(1000.0, 1000.0 + ScoredLatency(n), 1000.0 + ScoredLatency(m));
    InverseShrinks(1.0, 1.0 + ScoredIdleness(n, now) / 60.0, 1.0 + ScoredIdleness(m, now) / 60.0);
  }

  // ── Nodes over whole runs ────────────────────────────────────────

  datatype Event =
    | Success(url: Url, latency: real, at: nat)
    | Failure(url: Url, at: nat)
    | Selection(at: nat)

  function Step(nodes: Nodes, urls: seq<Url>, cfg: CB.Config, e: Event): Nodes {
    var n := Ensured(nodes, urls);
    match e
    case Success(url, latency, at) => if url in n then n[url := Succeeded(n[url], latency, at)] else n
    case Failure(url, at) => if url in n then n[url := FailedNode(n[url], cfg, at)] else n
    case Selection(at) => AllAsked(n, urls, cfg, at)
  }

  function Run(urls: seq<Url>, cfg: CB.Config, es: seq<Event>): Nodes
    decreases |es|
  {
    if es == [] then map[] else Step(Run(urls, cfg, es[..|es| - 1]), urls, cfg, es[|es| - 1])
  }

  /** What one node's breaker sees of an event. */
  function Seen(e: Event, url: Url): seq<CB.Event> {
    match e
    case Success(u, _, _) => if u == url then [CB.Success] else []
    case Failure(u, at) => if u == url then [CB.Failure(at)] else []
    case Selection(at) => [CB.Ask(at)]
  }

  function History(es: seq<Event>, url: Url): seq<CB.Event>
    decreases |es|
  {
    if es == [] then [] else History(es[..|es| - 1], url) + Seen(es[|es| - 1], url)
  }

  function Samples(es: seq<Event>, url: Url): seq<real>
    decreases |es|
  {
    if es == [] then []
    else
      var e := es[|es| - 1];
      Samples(es[..|es| - 1], url) + if e.Success? && e.url == url then [e.latency] else []
  }

  function LatestSuccess(es: seq<Event>, url: Url): Option<nat>
    decreases |es|
  {
    if es == [] then None
    else
      var e := es[|es| - 1];
      if e.Success? && e.url == url then Some(e.at) else LatestSuccess(es[..|es| - 1], url)
  }

  lemma AfterMore(cfg: CB.Config, es: seq<CB.Event>, e: CB.Event)
    ensures CB.After(cfg, es + [e]) == CB.Apply(CB.After(cfg, es), cfg, e)
  {
    assert CB.AllButLast(es + [e]) == es;
  }

  lemma AverageMore(samples: seq<real>, sample: real)
    ensures AverageOf(samples + [sample]) == Averaged(AverageOf(samples), sample)
  {
    assert (samples + [sample])[..|samples|] == samples;
  }

  lemma StepOnNode(nodes: Nodes, urls: seq<Url>, cfg: CB.Config, e: Event, url: Url)
    requires url in urls && nodes.Keys <= Listed(urls)
    ensures Step(nodes, urls, cfg, e).Keys <= Listed(urls)
    ensures var n, m := Ensured(nodes, urls)[url], Ensured(Step(nodes, urls, cfg, e), urls)[url];
            && m.breaker == (if |Seen(e, url)| == 1 then CB.Apply(n.breaker, cfg, Seen(e, url)[0]) else n.breaker)
            && m.avgLatency == (if e.Success? && e.url == url then Averaged(n.avgLatency, e.latency) else n.avgLatency)
            && m.lastSuccess == if e.Success? && e.url == url then Some(e.at) else n.lastSuccess
  {
  }

  /** Nodes do not influence each other: a node's breaker is what a breaker of its own would be after that
      node's outcomes and the selections, its average is that of its own latencies, and its last success is its
      own. */
  lemma {:induction false} NodesAreIndependent(urls: seq<Url>, cfg: CB.Config, es: seq<Event>, url: Url)
    requires url in urls
    ensures var n := Ensured(Run(urls, cfg, es), urls)[url];
            && n.breaker == CB.After(cfg, History(es, url)) && n.avgLatency == AverageOf(Samples(es, url))
            && n.lastSuccess == LatestSuccess(es, url)
    ensures Run(urls, cfg, es).Keys <= Listed(urls)
    decreases |es|
  {
    if es != [] {
      var front, e := es[..|es| - 1], es[|es| - 1];
      NodesAreIndependent(urls, cfg, front, url);
      StepOnNode(Run(urls, cfg, front), urls, cfg, e, url);
      if |Seen(e, url)| == 1 {
        AfterMore(cfg, History(front, url), Seen(e, url)[0]);
        assert Seen(e, url) == [Seen(e, url)[0]];
      } else {
        assert History(es, url) == History(front, url);
      }
      if e.Success? && e.url == url {
        AverageMore(Samples(front, url), e.latency);
      } else {
        assert Samples(es, url) == Samples(front, url);
      }
    }
  }

  /** After any run a configured node is missing from a selection exactly when its breaker is open and the
      reset timeout since the node's own latest failure has not passed. */
  lemma LeftOutExactlyWhen(strategy: Strategy, urls: seq<Url>, cfg: CB.Config, es: seq<Event>, counter: nat, now: nat,
                           url: Url)
    requires url in urls && CB.Representable(cfg)
    ensures var nodes, h := Ensured(Run(urls, cfg, es), urls), History(es, url);
            url !in Select(strategy, urls, nodes, cfg, counter, now) <==>
              && CB.After(cfg, h).state == CB.Open
              && (CB.LatestFailure(h).Some? ==> now < CB.LatestFailure(h).value + cfg.resetTimeout)
  {
    var nodes := Ensured(Run(urls, cfg, es), urls);
    NodesAreIndependent(urls, cfg, es, url);
    SelectionHoldsTheAdmitted(strategy, urls, nodes, cfg, counter, now, url);
    CB.RefusedExactlyWhen(cfg, History(es, url), now);
    assert url in multiset(urls);
    var r := Select(strategy, urls, nodes, cfg, counter, now);
    assert url in r <==> multiset(r)[url] > 0;
  }

  // ── Consecutive round-robin calls ────────────────────────────────

  /** The answers of the round-robin calls of a run, whatever outcomes are recorded in between. */
  function Selections(urls: seq<Url>, nodes: Nodes, cfg: CB.Config, counter: nat, es: seq<Event>): seq<seq<Url>>
    decreases |es|
  {
    if es == [] then []
    else
      var e, n := es[0], Ensured(nodes, urls);
      var next := Step(nodes, urls, cfg, e);
      if e.Selection? then
        [Select(RoundRobin, urls, n, cfg, counter, e.at)]
        + Selections(urls, next, cfg, NextCounter(RoundRobin, Available(urls, n, cfg, e.at), counter), es[1..])
      else Selections(urls, next, cfg, counter, es[1..])
  }

  /** Every call of the run finds the same nodes available. */
  ghost predicate Steady(urls: seq<Url>, nodes: Nodes, cfg: CB.Config, es: seq<Event>, available: seq<Url>)
    decreases |es|
  {
    es == [] ||
    (&& (es[0].Selection? ==> Available(urls, Ensured(nodes, urls), cfg, es[0].at) == available)
     && Steady(urls, Step(nodes, urls, cfg, es[0]), cfg, es[1..], available))
  }

  lemma PickShifts(span: nat, counter: nat, n: nat, k: nat)
    requires 0 < n && counter < span
    ensures FirstPick(span, (counter + 1) % span, n, k) == FirstPick(span, counter, n, k + 1)
  {
    if counter + 1 < span {
      RemainderIs(counter + 1, span, 0, counter + 1);
    } else {
      RemainderIs(counter + 1, span, 1, 0);
      var q := k / span;
      assert k == q * span + k % span;
      assert (q + 1) * span == q * span + span;
      RemainderIs(counter + (k + 1), span, q + 1, k % span);
    }
  }

  /** The k-th of these calls starts the rotation at the k-th pick. */
  lemma {:induction false} SelectionsFollowPicks(urls: seq<Url>, nodes: Nodes, cfg: CB.Config, counter: nat,
                                                 es: seq<Event>,
                                                 available: seq<Url>, k: nat)
    requires Steady(urls, nodes, cfg, es, available) && available != [] && counter < USIZE_SPAN
    requires k < |Selections(urls, nodes, cfg, counter, es)|
    ensures Selections(urls, nodes, cfg, counter, es)[k]
            == Rotated(available, FirstPick(USIZE_SPAN, counter, |available|, k))
    decreases |es|
  {
    var next := Step(nodes, urls, cfg, es[0]);
    if es[0].Selection? {
      if k == 0 {
        RemainderIs(counter, USIZE_SPAN, 0, counter);
      } else {
        SelectionsFollowPicks(urls, next, cfg, (counter + 1) % USIZE_SPAN, es[1..], available, k - 1);
        PickShifts(USIZE_SPAN, counter, |available|, k - 1);
      }
    } else {
      SelectionsFollowPicks(urls, next, cfg, counter, es[1..], available, k);
    }
  }

  lemma FirstOfSelection(urls: seq<Url>, nodes: Nodes, cfg: CB.Config, counter: nat, es: seq<Event>,
                         available: seq<Url>, k: nat)
    requires Steady(urls, nodes, cfg, es, available) && available != [] && counter < USIZE_SPAN
    requires k < |Selections(urls, nodes, cfg, counter, es)|
    ensures Selections(urls, nodes, cfg, counter, es)[k] != []
    ensures Selections(urls, nodes, cfg, counter, es)[k][0] == available[FirstPick(USIZE_SPAN, counter, |available|, k)]
  {
    SelectionsFollowPicks(urls, nodes, cfg, counter, es, available, k);
    RotatedFirst(available, FirstPick(USIZE_SPAN, counter, |available|, k));
  }

  /** Which node comes first in each call. */
  function Firsts(selections: seq<seq<Url>>): seq<Url>
    requires forall k :: 0 <= k < |selections| ==> selections[k] != []
  {
    seq(|selections|, k requires 0 <= k < |selections| => selections[k][0])
  }

  ghost predicate Distinct(urls: seq<Url>) { forall i, j :: 0 <= i < j < |urls| ==> urls[i] != urls[j] }

  /** As many consecutive calls as there are available nodes. */
  ghost predicate OneRound(urls: seq<Url>, nodes: Nodes, cfg: CB.Config, counter: nat, es: seq<Event>,
                           available: seq<Url>) {
    && Steady(urls, nodes, cfg, es, available) && counter < USIZE_SPAN
    && 0 < |available| <= USIZE_SPAN && |Selections(urls, nodes, cfg, counter, es)| == |available|
  }

  /** In one round, with the outcomes of requests recorded in between, no node comes first twice exactly when
      the counter does not wrap in between or the number of nodes divides its range. */
  lemma RotationIsFairExactlyWhen(urls: seq<Url>, nodes: Nodes, cfg: CB.Config, counter: nat, es: seq<Event>,
                                  available: seq<Url>)
    requires OneRound(urls, nodes, cfg, counter, es, available) && Distinct(available)
    ensures var calls := Selections(urls, nodes, cfg, counter, es);
            && (forall k :: 0 <= k < |calls| ==> calls[k] != [])
            && (Distinct(Firsts(calls)) <==> counter + |available| <= USIZE_SPAN || USIZE_SPAN % |available| == 0)
  {
    var calls, n := Selections(urls, nodes, cfg, counter, es), |available|;
    forall k | 0 <= k < n
      ensures calls[k] != [] && calls[k][0] == available[FirstPick(USIZE_SPAN, counter, n, k)]
    {
      FirstOfSelection(urls, nodes, cfg, counter, es, available, k);
    }
    PicksDifferExactlyWhen(counter, n);
    var firsts := Firsts(calls);
    forall i, j | 0 <= i < j < n
      ensures firsts[i] != firsts[j] <==> FirstPick(USIZE_SPAN, counter, n, i) != FirstPick(USIZE_SPAN, counter, n, j)
    {
      var a, b := FirstPick(USIZE_SPAN, counter, n, i), FirstPick(USIZE_SPAN, counter, n, j);
      assert firsts[i] == available[a] && firsts[j] == available[b];
    }
    assert Distinct(firsts) <==> NoneFirstTwice(USIZE_SPAN, counter, n);
  }

  /** In such a round each available node does come first. */
  lemma EachComesFirst(urls: seq<Url>, nodes: Nodes, cfg: CB.Config, counter: nat, es: seq<Event>,
                       available: seq<Url>, u: Url)
    requires OneRound(urls, nodes, cfg, counter, es, available) && u in available
    requires counter + |available| <= USIZE_SPAN || USIZE_SPAN % |available| == 0
    ensures var calls := Selections(urls, nodes, cfg, counter, es);
            exists k :: 0 <= k < |calls| && calls[k] != [] && calls[k][0] == u
  {
    var position :| 0 <= position < |available| && available[position] == u;
    EachIsPicked(USIZE_SPAN, counter, |available|, position);
    var k: nat :| k < |available| && FirstPick(USIZE_SPAN, counter, |available|, k) == position;
    FirstOfSelection(urls, nodes, cfg, counter, es, available, k);
  }

  // ── What outweighs what ──────────────────────────────────────────

  /** How much faster the first node counts than the second, and how much more recently it succeeded. */
  function LatencyLead(n: Node, m: Node): real {
    1000.0 / (1000.0 + ScoredLatency(n)) - 1000.0 / (1000.0 + ScoredLatency(m))
  }

  function RecencyLead(n: Node, m: Node, now: nat): real {
    60.0 / (60.0 + ScoredIdleness(n, now)) - 60.0 / (60.0 + ScoredIdleness(m, now))
  }

  /** Latency counts seven to three against recency. */
  predicate Outweighs(n: Node, m: Node, now: nat) { 7.0 * LatencyLead(n, m) > 3.0 * RecencyLead(m, n, now) }

  lemma SameQuotient(t: real)
    requires t >= 0.0
    ensures 1.0 / (1.0 + t / 60.0) == 60.0 / (60.0 + t)
  {
    var x, y := 1.0 / (1.0 + t / 60.0), 60.0 / (60.0 + t);
    assert (60.0 + t) == 60.0 * (1.0 + t / 60.0);
    assert x * (1.0 + t / 60.0) == 1.0 && y * (60.0 + t) == 60.0;
    assert (x - y) * (60.0 + t) == 0.0;
    QuotientSign(x - y, 60.0 + t);
    QuotientSign(y - x, 60.0 + t);
  }

  lemma HigherScoreExactlyWhen(n: Node, m: Node, cfg: CB.Config, now: nat)
    requires CB.Allow(n.breaker, cfg, now).1 && CB.Allow(m.breaker, cfg, now).1
    ensures Score(n, cfg, now) > Score(m, cfg, now) <==> Outweighs(n, m, now)
  {
    ScoreParts(n, cfg, now);
    ScoreParts(m, cfg, now);
    SameQuotient(ScoredIdleness(n, now));
    SameQuotient(ScoredIdleness(m, now));
  }

  function ByMerit(nodes: Nodes, now: nat): Order<Url> {
    (a, b) => a in nodes && b in nodes && Outweighs(nodes[a], nodes[b], now)
  }

  lemma {:induction false} AvailableAreAdmitted(urls: seq<Url>, nodes: Nodes, cfg: CB.Config, now: nat)
    ensures forall u | u in Available(urls, nodes, cfg, now) :: u in urls && Admitted(nodes, cfg, now, u)
  {
    if urls != [] {
      AvailableAreAdmitted(urls[..|urls| - 1], nodes, cfg, now);
    }
  }

  lemma {:induction false} TiedAlike(xs: seq<Url>, u: Url, a: Order<Url>, b: Order<Url>)
    requires forall x | x in xs :: a(x, u) == b(x, u) && a(u, x) == b(u, x)
    ensures TiedWith(xs, u, a) == TiedWith(xs, u, b)
  {
    if xs != [] {
      TiedAlike(xs[..|xs| - 1], u, a, b);
    }
  }

  /** By weight, in terms of latencies and of the time since the last success alone: among the admitted nodes
      none is placed before one that outweighs it, and where neither outweighs the other the configured order
      stays. */
  lemma WeightedByMerit(urls: seq<Url>, nodes: Nodes, cfg: CB.Config, counter: nat, now: nat)
    requires forall u | u in urls :: u in nodes
    ensures var r := Select(Weighted, urls, nodes, cfg, counter, now);
            && (forall u | u in r :: u in nodes)
            && (forall i, j :: 0 <= i < |r| && 0 <= j < |r| && Outweighs(nodes[r[i]], nodes[r[j]], now) ==> i < j)
            && (forall u | u in r :: TiedWith(r, u, ByMerit(nodes, now))
                                  == TiedWith(Available(urls, nodes, cfg, now), u, ByMerit(nodes, now)))
  {
    var r, available := Select(Weighted, urls, nodes, cfg, counter, now), Available(urls, nodes, cfg, now);
    WeightOrder(urls, nodes, cfg, counter, now);
    SelectionArranges(Weighted, urls, nodes, cfg, counter, now);
    AvailableAreAdmitted(urls, nodes, cfg, now);
    SameElements(r, available);
    MeritIsWeight(available, nodes, cfg, now);
    forall i, j | 0 <= i < |r| && 0 <= j < |r| && Outweighs(nodes[r[i]], nodes[r[j]], now)
      ensures i < j
    {
      assert ByMerit(nodes, now)(r[i], r[j]) && ByWeight(nodes, cfg, now)(r[i], r[j]);
    }
    forall u | u in r
      ensures TiedWith(r, u, ByMerit(nodes, now)) == TiedWith(available, u, ByMerit(nodes, now))
    {
      TiedAlike(r, u, ByMerit(nodes, now), ByWeight(nodes, cfg, now));
      TiedAlike(available, u, ByMerit(nodes, now), ByWeight(nodes, cfg, now));
    }
  }

  lemma SameElements(r: seq<Url>, s: seq<Url>)
    requires multiset(r) == multiset(s)
    ensures forall u | u in r :: u in s
  {
    forall u | u in r
      ensures u in s
    {
      assert u in multiset(r);
    }
  }

  lemma MeritIsWeight(available: seq<Url>, nodes: Nodes, cfg: CB.Config, now: nat)
    requires forall u | u in available :: u in nodes && Admitted(nodes, cfg, now, u)
    ensures forall u, v | u in available && v in available ::
              ByMerit(nodes, now)(u, v) == ByWeight(nodes, cfg, now)(u, v)
  {
    forall u, v | u in available && v in available
      ensures ByMerit(nodes, now)(u, v) == ByWeight(nodes, cfg, now)(u, v)
    {
      HigherScoreExactlyWhen(nodes[u], nodes[v], cfg, now);
    }
  }

  /** A lead of three sevenths in latency is never lost to recency. */
  lemma LatencyLeadDecides(n: Node, m: Node, now: nat)
    requires 7.0 * LatencyLead(n, m) >= 3.0
    ensures Outweighs(n, m, now)
  {
    InverseShrinks(60.0, 60.0 + ScoredIdleness(n, now), 60.0 + ScoredIdleness(n, now));
    InverseShrinks(60.0, 60.0 + ScoredIdleness(m, now), 60.0 + ScoredIdleness(m, now));
  }

  // ── How fast an average forgets ──────────────────────────────────

  function NineTenthsTo(n: nat): real { if n == 0 then 1.0 else 0.9 * NineTenthsTo(n - 1) }

  function Repeated(x: real, n: nat): seq<real> { seq(n, _ => x) }

  /** After `n` more samples of one value, nine tenths to the power of `n` is left of the distance to it. */
  lemma {:induction false} AverageForgets(samples: seq<real>, x: real, n: nat)
    requires AverageOf(samples) > 0.0 && x > 0.0
    ensures AverageOf(samples + Repeated(x, n)) > 0.0
    ensures AverageOf(samples + Repeated(x, n)) - x == NineTenthsTo(n) * (AverageOf(samples) - x)
  {
    if n == 0 {
      assert samples + Repeated(x, 0) == samples;
    } else {
      AverageForgets(samples, x, n - 1);
      var before := samples + Repeated(x, n - 1);
      assert samples + Repeated(x, n) == before + [x];
      AverageMore(before, x);
      TenthForgets(AverageOf(before), x, NineTenthsTo(n - 1), AverageOf(samples) - x);
    }
  }

  lemma TenthForgets(a: real, x: real, k: real, d: real)
    requires a > 0.0 && x > 0.0 && a - x == k * d
    ensures Averaged(a, x) > 0.0 && Averaged(a, x) - x == (0.9 * k) * d
  {
    assert 0.9 * (k * d) == (0.9 * k) * d;
  }
}
